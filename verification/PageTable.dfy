/**
 The page-table tree kept inside RAM. Frames hold tables and pages alike; a table row holds the number of
 a child frame, or 0. `Tree` labels every linked frame with its path from the root and its parent frame:
 since a frame has one label, it has one parent and one position.
 */
module PageTable {
  import opened MemoryConstants
  import opened PagePaths

  type Frames = seq<Page>

  datatype Node = Node(path: Path, parent: int)

  type Tree = map<int, Node>

  ghost predicate Shape(c: Config, ram: Frames) {
    && c.Supported()
    && |ram| == c.NumFrames()
    && forall f :: 0 <= f < |ram| ==> |ram[f]| == c.PageSize()
  }

  predicate Empty(row: Page) {
    forall i :: 0 <= i < |row| ==> row[i] == 0
  }

  /** RAM with one word replaced. */
  function Poke(ram: Frames, frame: nat, row: nat, value: Word): Frames
    requires frame < |ram| && row < |ram[frame]|
  {
    var page: Page := ram[frame][row := value];
    ram[frame := page]
  }

  predicate IsTable(c: Config, tree: Tree, f: int)
    requires c.Supported()
  {
    f in tree && |tree[f].path| < c.TablesDepth()
  }

  predicate IsLeaf(c: Config, tree: Tree, f: int)
    requires c.Supported()
  {
    f in tree && |tree[f].path| == c.TablesDepth()
  }

  /** The labels agree with RAM: every non-zero row of a table is a child with the matching label, every
      labelled frame but the root hangs off its parent, and pages hang at full depth only. */
  ghost predicate IsTree(c: Config, ram: Frames, tree: Tree) {
    && Shape(c, ram)
    && 0 in tree && tree[0] == Node([], 0)
    && (forall f :: f in tree ==> 0 <= f < |ram| && |tree[f].path| <= c.TablesDepth() && InRadix(c, tree[f].path))
    && (forall f {:trigger Hangs(c, ram, tree, f)} :: f in tree && f != 0 ==> Hangs(c, ram, tree, f))
    && (forall f, r :: IsTable(c, tree, f) && 0 <= r < c.PageSize() && ram[f][r] != 0 ==>
          ram[f][r] in tree && tree[ram[f][r]] == Node(tree[f].path + [r], f))
  }

  /** Every page in the tree is a page of the virtual memory. */
  ghost predicate PagesInRange(c: Config, tree: Tree)
    requires c.Supported()
  {
    forall f :: IsLeaf(c, tree, f) ==> PageOf(c, tree[f].path) < c.NumPages()
  }

  ghost predicate Hangs(c: Config, ram: Frames, tree: Tree, f: int)
    requires Shape(c, ram) && f in tree
  {
    var path, parent := tree[f].path, tree[f].parent;
    && f != 0
    && path != [] && path[|path| - 1] < c.PageSize()
    && IsTable(c, tree, parent) && 0 <= parent < |ram|
    && tree[parent].path == path[..|path| - 1]
    && ram[parent][path[|path| - 1]] == f
  }

  function LastRow(tree: Tree, f: int): nat
    requires f in tree && tree[f].path != []
  {
    tree[f].path[|tree[f].path| - 1]
  }

  /** The physical address of a word of a frame. */
  function Address(c: Config, frame: nat, row: nat): (address: nat)
  {
    Times(frame, c.PageSize()) + row
  }

  /** Addresses of words in RAM are in range, and split back into frame and word. */
  lemma AddressSplits(c: Config, frame: nat, row: nat)
    requires c.Supported() && row < c.PageSize() && frame < c.NumFrames()
    ensures var a := Address(c, frame, row);
            a < c.RamSize() && Div(a, c.PageSize()) == frame && Mod(a, c.PageSize()) == row
  {
    DivModUnique(frame, row, c.PageSize());
    TimesMonotone(frame + 1, c.NumFrames(), c.PageSize());
    SizeFactors(c.physicalWidth - c.offsetWidth, c.offsetWidth);
  }

  /** Every physical address is a word of some frame. */
  lemma AddressInFrame(c: Config, address: nat)
    requires c.Supported() && address < c.RamSize()
    ensures Div(address, c.PageSize()) < c.NumFrames()
  {
    var f := Div(address, c.PageSize());
    SizeFactors(c.physicalWidth - c.offsetWidth, c.offsetWidth);
    DivModJoin(address, c.PageSize());
    if f >= c.NumFrames() {
      TimesMonotone(c.NumFrames(), f, c.PageSize());
      assert false;
    }
  }

  /** The physical address of the row that links f. */
  function LinkAddress(c: Config, tree: Tree, f: int): int
    requires f in tree && tree[f].path != [] && tree[f].parent >= 0
  {
    Address(c, tree[f].parent, LastRow(tree, f))
  }

  // ---------- Shape of the tree ----------

  /** No sharing: two frames never stand at the same position. */
  lemma {:induction false} PositionsUnique(c: Config, ram: Frames, tree: Tree, f: int, g: int)
    requires IsTree(c, ram, tree) && f in tree && g in tree && tree[f].path == tree[g].path
    ensures f == g
    decreases |tree[f].path|
  {
    if tree[f].path != [] {
      assert Hangs(c, ram, tree, f) && Hangs(c, ram, tree, g);
      PositionsUnique(c, ram, tree, tree[f].parent, tree[g].parent);
    } else {
      assert f != 0 ==> Hangs(c, ram, tree, f);
      assert g != 0 ==> Hangs(c, ram, tree, g);
    }
  }

  /** The labelling is determined by RAM alone. */
  lemma {:induction false} LabelsUnique(c: Config, ram: Frames, tree: Tree, tree': Tree, f: int)
    requires IsTree(c, ram, tree) && IsTree(c, ram, tree') && f in tree
    ensures f in tree' && tree'[f] == tree[f]
    decreases |tree[f].path|
  {
    if f != 0 {
      assert Hangs(c, ram, tree, f);
      var p, r := tree[f].parent, LastRow(tree, f);
      LabelsUnique(c, ram, tree, tree', p);
      assert tree[f].path == tree[p].path + [r];
      assert IsTable(c, tree', p) && ram[p][r] == f;
    }
  }

  /** A frame on the way down to another links the next frame of that way. */
  lemma {:induction false} WayDown(c: Config, ram: Frames, tree: Tree, g: int, f: int) returns (child: int)
    requires IsTree(c, ram, tree) && f in tree && g in tree
    requires tree[g].path < tree[f].path
    ensures child == ram[g][tree[f].path[|tree[g].path|]]
    ensures child != 0 && child in tree && tree[child] == Node(tree[g].path + [tree[f].path[|tree[g].path|]], g)
    ensures tree[child].path <= tree[f].path
    decreases |tree[f].path|
  {
    var n := |tree[f].path| - 1;
    assert Hangs(c, ram, tree, f);
    var h := tree[f].parent;
    assert tree[g].path <= tree[h].path;
    if |tree[g].path| == n {
      PositionsUnique(c, ram, tree, g, h);
      child := f;
    } else {
      child := WayDown(c, ram, tree, g, h);
    }
  }

  // ---------- The translation of a page, read off RAM ----------

  /** The frame reached by following the first `depth` rows of a page's walk, or -1 when a row is 0. */
  ghost function Walk(c: Config, ram: Frames, page: nat, depth: nat): (f: int)
    requires Shape(c, ram) && depth <= c.TablesDepth()
    ensures -1 <= f < |ram|
  {
    if depth == 0 then 0 else
      var g := Walk(c, ram, page, depth - 1);
      if g < 0 then -1 else
        var next := ram[g][FetchDepthOffset(c, page, depth - 1)];
        if 0 < next < |ram| then next else -1
  }

  /** Walking arrives at exactly the frame labelled with the page's path, if there is one. */
  lemma {:induction false} WalkFollowsLabels(c: Config, ram: Frames, tree: Tree, page: nat, depth: nat)
    requires IsTree(c, ram, tree) && depth <= c.TablesDepth()
    ensures var f := Walk(c, ram, page, depth); f >= 0 ==> f in tree && tree[f].path == WalkPath(c, page, depth)
    ensures forall f :: f in tree && tree[f].path == WalkPath(c, page, depth) ==> Walk(c, ram, page, depth) == f
  {
    if depth == 0 {
      forall f | f in tree && tree[f].path == [] ensures f == 0 {
        PositionsUnique(c, ram, tree, f, 0);
      }
    } else {
      WalkFollowsLabels(c, ram, tree, page, depth - 1);
      var g := Walk(c, ram, page, depth - 1);
      var r := FetchDepthOffset(c, page, depth - 1);
      assert g >= 0 ==> IsTable(c, tree, g);
      forall f | f in tree && tree[f].path == WalkPath(c, page, depth) ensures Walk(c, ram, page, depth) == f {
        assert Hangs(c, ram, tree, f);
        assert tree[f].path[..depth - 1] == WalkPath(c, page, depth - 1);
      }
    }
  }

  /** The pages mapped in RAM, each with its frame. */
  ghost function PageMap(c: Config, ram: Frames): (pages: map<nat, int>)
    requires Shape(c, ram)
    ensures forall q :: q in pages ==> q < c.NumPages() && 0 <= pages[q] < |ram|
  {
    map q: nat | q < c.NumPages() && Walk(c, ram, q, c.TablesDepth()) >= 0 :: Walk(c, ram, q, c.TablesDepth())
  }

  /** `pages` lists exactly the leaves of the tree, by page number. */
  ghost predicate ListsLeaves(c: Config, pages: map<nat, int>, tree: Tree)
    requires c.Supported()
  {
    && (forall q :: q in pages ==> IsLeaf(c, tree, pages[q]) && PageOf(c, tree[pages[q]].path) == q)
    && (forall f :: IsLeaf(c, tree, f) ==>
          PageOf(c, tree[f].path) in pages && pages[PageOf(c, tree[f].path)] == f)
  }

  /** The pages that translate are exactly the leaves, so no frame holds two pages. */
  lemma PageMapListsLeaves(c: Config, ram: Frames, tree: Tree)
    requires IsTree(c, ram, tree) && PagesInRange(c, tree)
    ensures ListsLeaves(c, PageMap(c, ram), tree)
  {
    var pages := PageMap(c, ram);
    forall q | q in pages ensures IsLeaf(c, tree, pages[q]) && PageOf(c, tree[pages[q]].path) == q {
      WalkFollowsLabels(c, ram, tree, q, c.TablesDepth());
      RadixRoundTrip(c, q);
    }
    forall f | IsLeaf(c, tree, f)
      ensures PageOf(c, tree[f].path) in pages && pages[PageOf(c, tree[f].path)] == f
    {
      PathRoundTrip(c, tree[f].path);
      WalkFollowsLabels(c, ram, tree, PageOf(c, tree[f].path), c.TablesDepth());
    }
  }

  // ---------- Changes of the tree ----------

  /** Unlinking a childless frame leaves a tree. */
  lemma DetachKeepsTree(c: Config, ram: Frames, tree: Tree, u: int)
    requires IsTree(c, ram, tree) && u in tree && u != 0
    requires IsTable(c, tree, u) ==> Empty(ram[u])
    ensures Hangs(c, ram, tree, u)
    ensures IsTree(c, Poke(ram, tree[u].parent, LastRow(tree, u), 0), tree - {u})
  {
    assert Hangs(c, ram, tree, u);
    var ram', tree' := Poke(ram, tree[u].parent, LastRow(tree, u), 0), tree - {u};
    forall f | f in tree' && f != 0 ensures Hangs(c, ram', tree', f) {
      DetachKeepsParent(c, ram, tree, u, f);
    }
    forall f, s | IsTable(c, tree', f) && 0 <= s < c.PageSize() && ram'[f][s] != 0
      ensures ram'[f][s] in tree' && tree'[ram'[f][s]] == Node(tree'[f].path + [s], f)
    {
      DetachKeepsRow(c, ram, tree, u, f, s);
    }
  }

  lemma DetachKeepsParent(c: Config, ram: Frames, tree: Tree, u: int, f: int)
    requires IsTree(c, ram, tree) && u in tree && u != 0 && f in tree && f != u && f != 0
    requires IsTable(c, tree, u) ==> Empty(ram[u])
    ensures Hangs(c, ram, tree, u)
    ensures Hangs(c, Poke(ram, tree[u].parent, LastRow(tree, u), 0), tree - {u}, f)
  {
    assert Hangs(c, ram, tree, u);
    assert Hangs(c, ram, tree, f);
    assert ram[tree[f].parent][LastRow(tree, f)] == f;
    assert tree[f].parent != u;
  }

  lemma DetachKeepsRow(c: Config, ram: Frames, tree: Tree, u: int, f: int, s: nat)
    requires IsTree(c, ram, tree) && u in tree && u != 0 && IsTable(c, tree, f) && f != u && s < c.PageSize()
    ensures Hangs(c, ram, tree, u)
    ensures Poke(ram, tree[u].parent, LastRow(tree, u), 0)[f][s] == if ram[f][s] == u then 0 else ram[f][s]
  {
    assert Hangs(c, ram, tree, u);
    assert ram[f][s] != 0 ==> tree[ram[f][s]] == Node(tree[f].path + [s], f);
  }

  /** Linking an unlinked frame into a zero row leaves a tree, provided a new table is empty. */
  lemma AttachKeepsTree(c: Config, ram: Frames, tree: Tree, f: int, r: nat, u: int)
    requires IsTree(c, ram, tree) && IsTable(c, tree, f) && r < c.PageSize() && ram[f][r] == 0
    requires u !in tree && 0 < u < |ram|
    requires |tree[f].path| + 1 < c.TablesDepth() ==> Empty(ram[u])
    ensures IsTree(c, Poke(ram, f, r, u), tree[u := Node(tree[f].path + [r], f)])
  {
    hide InRadix, Empty, Hangs;
    var ram', tree' := Poke(ram, f, r, u), tree[u := Node(tree[f].path + [r], f)];
    AttachKeepsNodes(c, ram, tree, f, r, u);
    forall g | g in tree' && g != 0 ensures Hangs(c, ram', tree', g) {
      AttachKeepsParent(c, ram, tree, f, r, u, g);
    }
    forall g, s | IsTable(c, tree', g) && 0 <= s < c.PageSize() && ram'[g][s] != 0
      ensures ram'[g][s] in tree' && tree'[ram'[g][s]] == Node(tree'[g].path + [s], g)
    {
      AttachKeepsRow(c, ram, tree, f, r, u, g, s);
    }
  }

  lemma AttachKeepsRow(c: Config, ram: Frames, tree: Tree, f: int, r: nat, u: int, g: int, s: nat)
    requires IsTree(c, ram, tree) && IsTable(c, tree, f) && r < c.PageSize() && ram[f][r] == 0
    requires u !in tree && 0 < u < |ram| && s < c.PageSize()
    requires |tree[f].path| + 1 < c.TablesDepth() ==> Empty(ram[u])
    requires var tree' := tree[u := Node(tree[f].path + [r], f)];
             IsTable(c, tree', g) && Poke(ram, f, r, u)[g][s] != 0
    ensures var ram', tree' := Poke(ram, f, r, u), tree[u := Node(tree[f].path + [r], f)];
            ram'[g][s] in tree' && tree'[ram'[g][s]] == Node(tree'[g].path + [s], g)
  {
    if g != u && (g != f || s != r) {
      assert IsTable(c, tree, g) && ram[g][s] == Poke(ram, f, r, u)[g][s];
    }
  }

  lemma AttachKeepsNodes(c: Config, ram: Frames, tree: Tree, f: int, r: nat, u: int)
    requires IsTree(c, ram, tree) && IsTable(c, tree, f) && r < c.PageSize() && 0 < u < |ram|
    ensures var tree' := tree[u := Node(tree[f].path + [r], f)];
            forall g :: g in tree' ==>
              0 <= g < |ram| && |tree'[g].path| <= c.TablesDepth() && InRadix(c, tree'[g].path)
  {
  }

  lemma AttachKeepsParent(c: Config, ram: Frames, tree: Tree, f: int, r: nat, u: int, g: int)
    requires IsTree(c, ram, tree) && IsTable(c, tree, f) && r < c.PageSize() && ram[f][r] == 0
    requires u !in tree && 0 < u < |ram| && g != 0 && (g == u || g in tree)
    ensures Hangs(c, Poke(ram, f, r, u), tree[u := Node(tree[f].path + [r], f)], g)
  {
    if g == u {
      assert (tree[f].path + [r])[..|tree[f].path|] == tree[f].path;
    } else {
      assert Hangs(c, ram, tree, g);
      assert ram[tree[g].parent][LastRow(tree, g)] == g;
    }
  }

  /** The contents of pages and of unlinked frames do not matter to the tree. */
  lemma ContentsDoNotMatter(c: Config, ram: Frames, tree: Tree, f: int, page: Page)
    requires IsTree(c, ram, tree) && 0 <= f < |ram| && |page| == c.PageSize() && !IsTable(c, tree, f)
    ensures IsTree(c, ram[f := page], tree)
  {
    var ram' := ram[f := page];
    forall g | g in tree && g != 0 ensures Hangs(c, ram', tree, g) {
      assert Hangs(c, ram, tree, g);
    }
    forall g, s | IsTable(c, tree, g) && 0 <= s < c.PageSize() && ram'[g][s] != 0
      ensures ram'[g][s] in tree && tree[ram'[g][s]] == Node(tree[g].path + [s], g)
    {
      assert ram'[g] == ram[g];
    }
  }
}
