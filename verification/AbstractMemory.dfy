/** The memory a caller sees: the pages touched so far and their contents, wherever they are kept. */
module AbstractMemory {
  import opened MemoryConstants
  import opened PagePaths
  import opened PageTable
  import opened PageScan
  import opened PhysicalMemory

  ghost predicate Backed(pages: map<nat, int>, ram: Frames) {
    forall q :: q in pages ==> 0 <= pages[q] < |ram|
  }

  ghost function Contents(pages: map<nat, int>, ram: Frames, swap: SwapFile): (m: map<nat, Page>)
    requires Backed(pages, ram)
    ensures m.Keys == pages.Keys + swap.Keys
  {
    map q | q in pages.Keys + swap.Keys :: if q in pages then ram[pages[q]] else swap[q]
  }

  /** Page contents, read from RAM when the page is mapped and from the swap file otherwise. */
  ghost function Mem(c: Config, ram: Frames, swap: SwapFile): map<nat, Page>
    requires Shape(c, ram)
  {
    Contents(PageMap(c, ram), ram, swap)
  }

  /** The swap file holds whole pages, none of them mapped in RAM. */
  ghost predicate Exclusive(c: Config, pages: map<nat, int>, swap: SwapFile)
    requires c.Supported()
  {
    forall q :: q in swap ==> q < c.NumPages() && |swap[q]| == c.PageSize() && q !in pages
  }

  // ---------- Pages before and after a change of the tree ----------

  /** Outside frame u, both trees have the same pages at the same frames. */
  ghost predicate SameLeaves(c: Config, tree: Tree, tree': Tree, u: int)
    requires c.Supported()
  {
    && (forall f :: f != u && IsLeaf(c, tree, f) ==> f in tree' && tree'[f].path == tree[f].path)
    && (forall f :: f != u && IsLeaf(c, tree', f) ==> IsLeaf(c, tree, f))
  }

  lemma SameLeavesSamePages(c: Config, pages: map<nat, int>, tree: Tree, pages': map<nat, int>, tree': Tree)
    requires c.Supported() && ListsLeaves(c, pages, tree) && ListsLeaves(c, pages', tree')
    requires SameLeaves(c, tree, tree', -1) && -1 !in tree && -1 !in tree'
    ensures pages' == pages
  {
    forall q | q in pages ensures q in pages' && pages'[q] == pages[q] {
      assert IsLeaf(c, tree', pages[q]);
    }
    forall q | q in pages' ensures q in pages {
      assert IsLeaf(c, tree, pages'[q]);
    }
  }

  lemma UnlinkedPages(c: Config, pages: map<nat, int>, tree: Tree, pages': map<nat, int>, u: int)
    requires c.Supported() && ListsLeaves(c, pages, tree) && ListsLeaves(c, pages', tree - {u}) && IsLeaf(c, tree, u)
    ensures pages' == pages - {PageOf(c, tree[u].path)}
  {
    var tree' := tree - {u};
    forall q | q in pages - {PageOf(c, tree[u].path)} ensures q in pages' && pages'[q] == pages[q] {
      assert IsLeaf(c, tree', pages[q]);
    }
    forall q | q in pages' ensures q in pages - {PageOf(c, tree[u].path)} {
      assert IsLeaf(c, tree, pages'[q]);
    }
  }

  lemma LinkedPages(c: Config, pages: map<nat, int>, tree: Tree, pages': map<nat, int>, u: int, node: Node)
    requires c.Supported() && u !in tree && |node.path| == c.TablesDepth()
    requires ListsLeaves(c, pages, tree) && ListsLeaves(c, pages', tree[u := node])
    ensures pages' == pages[PageOf(c, node.path) := u]
  {
    var tree' := tree[u := node];
    assert IsLeaf(c, tree', u);
    forall q | q in pages && q != PageOf(c, node.path) ensures q in pages' && pages'[q] == pages[q] {
      assert IsLeaf(c, tree', pages[q]);
    }
    forall q | q in pages' && q != PageOf(c, node.path) ensures q in pages {
      assert IsLeaf(c, tree, pages'[q]);
    }
  }

  lemma StoredContents(pages: map<nat, int>, ram: Frames, swap: SwapFile, q: nat, contents: Page)
    requires Backed(pages, ram) && q in pages
    requires forall p :: p in pages && p != q ==> pages[p] != pages[q]
    ensures Contents(pages, ram[pages[q] := contents], swap) == Contents(pages, ram, swap)[q := contents]
  {
  }

  // ---------- What the steps of the pager do to the memory ----------

  /** Changing tables and unlinked frames only is invisible. */
  lemma TableChangeInvisible(c: Config, ram: Frames, tree: Tree, ram': Frames, tree': Tree, swap: SwapFile)
    requires IsTree(c, ram, tree) && PagesInRange(c, tree) && IsTree(c, ram', tree') && PagesInRange(c, tree')
    requires SameLeaves(c, tree, tree', -1)
    requires forall f :: IsLeaf(c, tree, f) ==> 0 <= f < |ram| && ram'[f] == ram[f]
    ensures PageMap(c, ram') == PageMap(c, ram) && Mem(c, ram', swap) == Mem(c, ram, swap)
  {
    PageMapListsLeaves(c, ram, tree);
    PageMapListsLeaves(c, ram', tree');
    SameLeavesSamePages(c, PageMap(c, ram), tree, PageMap(c, ram'), tree');
    SameContents(PageMap(c, ram), ram, ram', swap);
  }

  lemma SameContents(pages: map<nat, int>, ram: Frames, ram': Frames, swap: SwapFile)
    requires Backed(pages, ram) && |ram'| == |ram|
    requires forall q :: q in pages ==> ram'[pages[q]] == ram[pages[q]]
    ensures Contents(pages, ram', swap) == Contents(pages, ram, swap)
  {
  }

  /** Moving a page from RAM to the swap file is invisible. */
  lemma EvictionInvisible(c: Config, ram: Frames, tree: Tree, ram': Frames, swap: SwapFile, u: int)
    requires IsTree(c, ram, tree) && PagesInRange(c, tree) && IsLeaf(c, tree, u)
    requires IsTree(c, ram', tree - {u})
    requires forall f :: f != u && IsLeaf(c, tree, f) ==> 0 <= f < |ram| && ram'[f] == ram[f]
    requires Exclusive(c, PageMap(c, ram), swap)
    ensures var v := PageOf(c, tree[u].path);
            var swap' := swap[v := ram[u]];
            && v !in swap
            && PageMap(c, ram') == PageMap(c, ram) - {v}
            && Mem(c, ram', swap') == Mem(c, ram, swap)
            && Exclusive(c, PageMap(c, ram'), swap')
  {
    PageMapListsLeaves(c, ram, tree);
    PageMapListsLeaves(c, ram', tree - {u});
    var pages, pages' := PageMap(c, ram), PageMap(c, ram');
    UnlinkedPages(c, pages, tree, pages', u);
    EvictedContents(pages, ram, swap, ram', PageOf(c, tree[u].path));
  }

  lemma EvictedContents(pages: map<nat, int>, ram: Frames, swap: SwapFile, ram': Frames, v: nat)
    requires Backed(pages, ram) && |ram'| == |ram| && v in pages
    requires forall q :: q in pages && q != v ==> ram'[pages[q]] == ram[pages[q]]
    ensures Contents(pages - {v}, ram', swap[v := ram[pages[v]]]) == Contents(pages, ram, swap)
  {
  }

  /** After page q has been given frame u, and before its saved contents are restored: every other page is
      as in m, and q's contents in m, if any, are in the swap file. */
  ghost predicate Linked(c: Config, pages: map<nat, int>, ram: Frames, swap: SwapFile,
                         q: nat, u: int, m: map<nat, Page>)
    requires c.Supported()
  {
    && Backed(pages, ram)
    && q in pages && pages[q] == u
    && (q in m <==> q in swap)
    && (q in swap ==> m[q] == swap[q] && |swap[q]| == c.PageSize())
    && Exclusive(c, pages, swap - {q})
    && Contents(pages, ram, swap) == m[q := ram[u]]
  }

  lemma LinkPage(c: Config, ram: Frames, tree: Tree, ram': Frames, swap: SwapFile, q: nat, u: int, node: Node)
    requires IsTree(c, ram, tree) && PagesInRange(c, tree) && u !in tree
    requires IsTree(c, ram', tree[u := node]) && PagesInRange(c, tree[u := node])
    requires forall f :: IsLeaf(c, tree, f) ==> 0 <= f < |ram| && ram'[f] == ram[f]
    requires q < c.NumPages() && node.path == WalkPath(c, q, c.TablesDepth())
    requires Exclusive(c, PageMap(c, ram), swap) && q !in PageMap(c, ram)
    ensures Linked(c, PageMap(c, ram'), ram', swap, q, u, Mem(c, ram, swap))
    ensures PageMap(c, ram') == PageMap(c, ram)[q := u]
  {
    hide PageMap, Contents, PageOf, WalkPath;
    var pages, pages' := PageMap(c, ram), PageMap(c, ram');
    PageMapListsLeaves(c, ram, tree);
    PageMapListsLeaves(c, ram', tree[u := node]);
    LinkedPages(c, pages, tree, pages', u, node);
    assert PageOf(c, node.path) == q by { RadixRoundTrip(c, q); }
    forall p | p in pages ensures ram'[pages[p]] == ram[pages[p]] {
      assert IsLeaf(c, tree, pages[p]);
    }
    LinkedContents(c, pages, ram, swap, ram', q, u);
  }

  lemma LinkedContents(c: Config, pages: map<nat, int>, ram: Frames, swap: SwapFile, ram': Frames, q: nat, u: int)
    requires c.Supported() && Backed(pages, ram) && |ram'| == |ram| && q !in pages && 0 <= u < |ram|
    requires forall p :: p in pages ==> ram'[pages[p]] == ram[pages[p]]
    requires Exclusive(c, pages, swap)
    ensures Linked(c, pages[q := u], ram', swap, q, u, Contents(pages, ram, swap))
  {
    hide Contents;
    LinkedMemory(pages, ram, swap, ram', q, u);
  }

  lemma LinkedMemory(pages: map<nat, int>, ram: Frames, swap: SwapFile, ram': Frames, q: nat, u: int)
    requires Backed(pages, ram) && |ram'| == |ram| && q !in pages && 0 <= u < |ram|
    requires forall p :: p in pages ==> ram'[pages[p]] == ram[pages[p]]
    ensures Contents(pages[q := u], ram', swap) == Contents(pages, ram, swap)[q := ram'[u]]
    ensures q in Contents(pages, ram, swap) <==> q in swap
    ensures q in swap ==> Contents(pages, ram, swap)[q] == swap[q]
  {
    hide Contents;
    var pages' := pages[q := u];
    var m', m := Contents(pages', ram', swap), Contents(pages, ram, swap);
    assert m'.Keys == m.Keys + {q};
    forall p | p in m' ensures m'[p] == m[q := ram'[u]][p] {
      ContentsAt(pages', ram', swap, p);
      if p != q {
        ContentsAt(pages, ram, swap, p);
      }
    }
    if q in swap {
      ContentsAt(pages, ram, swap, q);
    }
  }

  lemma ContentsAt(pages: map<nat, int>, ram: Frames, swap: SwapFile, p: nat)
    requires Backed(pages, ram) && (p in pages || p in swap)
    ensures p in Contents(pages, ram, swap)
    ensures Contents(pages, ram, swap)[p] == if p in pages then ram[pages[p]] else swap[p]
  {
  }

  /** Storing contents into page q's frame changes page q and nothing else. */
  lemma StorePage(c: Config, ram: Frames, tree: Tree, swap: SwapFile, q: nat, contents: Page)
    requires IsTree(c, ram, tree) && PagesInRange(c, tree) && |contents| == c.PageSize() && q in PageMap(c, ram)
    ensures var ram' := ram[PageMap(c, ram)[q] := contents];
            && IsTree(c, ram', tree)
            && PageMap(c, ram') == PageMap(c, ram)
            && Mem(c, ram', swap) == Mem(c, ram, swap)[q := contents]
  {
    var u := PageMap(c, ram)[q];
    PageMapListsLeaves(c, ram, tree);
    ContentsDoNotMatter(c, ram, tree, u, contents);
    PageMapListsLeaves(c, ram[u := contents], tree);
    SameLeavesSamePages(c, PageMap(c, ram), tree, PageMap(c, ram[u := contents]), tree);
    StoredContents(PageMap(c, ram), ram, swap, q, contents);
  }

  /** Restoring a page brings back its old contents; a page never seen before keeps the frame's. */
  lemma RestorePage(c: Config, ram: Frames, tree: Tree, swap: SwapFile, q: nat, u: int, m: map<nat, Page>)
    requires IsTree(c, ram, tree) && PagesInRange(c, tree) && Linked(c, PageMap(c, ram), ram, swap, q, u, m)
    ensures var ram' := if q in swap then ram[u := swap[q]] else ram;
            var swap' := swap - {q};
            && IsTree(c, ram', tree)
            && PageMap(c, ram') == PageMap(c, ram)
            && Exclusive(c, PageMap(c, ram'), swap')
            && Mem(c, ram', swap') == (if q in m then m else m[q := ram[u]])
  {
    hide PageMap, Contents, PagesInRange;
    if q in swap {
      StorePage(c, ram, tree, swap, q, swap[q]);
      RestoredContents(PageMap(c, ram), ram[u := swap[q]], swap, q);
      UpdateTwice(m, q, ram[u], swap[q]);
    } else {
      assert swap - {q} == swap;
    }
  }

  lemma UpdateTwice(m: map<nat, Page>, q: nat, first: Page, last: Page)
    ensures m[q := first][q := last] == m[q := last]
    ensures q in m && m[q] == last ==> m[q := last] == m
  {
  }

  lemma RestoredContents(pages: map<nat, int>, ram: Frames, swap: SwapFile, q: nat)
    requires Backed(pages, ram) && q in pages
    ensures Contents(pages, ram, swap - {q}) == Contents(pages, ram, swap)
  {
  }
}
