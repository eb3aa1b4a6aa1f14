/** What the two recursive scans of the page table look for, and why there is always something to find. */
module PageScan {
  import Bags
  import opened MemoryConstants
  import opened PagePaths
  import opened PageTable

  // ---------- Regions a scan has covered ----------

  /** f lies under one of the first n rows of the table at path p. */
  predicate InRows(tree: Tree, f: int, p: Path, n: nat) {
    f in tree && p < tree[f].path && tree[f].path[|p|] < n
  }

  predicate Under(tree: Tree, f: int, p: Path) {
    f in tree && p <= tree[f].path
  }

  lemma RowsStep(tree: Tree, p: Path, r: nat)
    ensures forall f :: InRows(tree, f, p, r + 1) <==> InRows(tree, f, p, r) || Under(tree, f, p + [r])
    ensures forall f, g :: InRows(tree, f, p, r) && Under(tree, g, p + [r]) ==> Before(tree[f].path, tree[g].path)
  {
    forall f | InRows(tree, f, p, r + 1) && !InRows(tree, f, p, r) ensures Under(tree, f, p + [r]) {
      assert tree[f].path[..|p| + 1] == p + [r];
    }
    forall f | Under(tree, f, p + [r]) ensures InRows(tree, f, p, r + 1) {
      assert (p + [r])[|p|] == r && (p + [r])[..|p|] == p;
    }
    forall f, g | InRows(tree, f, p, r) && Under(tree, g, p + [r]) ensures Before(tree[f].path, tree[g].path) {
      assert (p + [r])[|p|] == r && (p + [r])[..|p|] == p;
      assert DivergesAt(tree[f].path, tree[g].path, |p|);
    }
  }

  /** A zero row has nothing under it; a table's region is itself and its rows. */
  lemma RowsOfTable(c: Config, ram: Frames, tree: Tree, g: int)
    requires IsTree(c, ram, tree) && IsTable(c, tree, g)
    ensures forall f, r: nat :: Under(tree, f, tree[g].path + [r]) ==> r < c.PageSize() && ram[g][r] != 0
    ensures forall f :: Under(tree, f, tree[g].path) <==> f == g || InRows(tree, f, tree[g].path, c.PageSize())
  {
    var p := tree[g].path;
    forall f, r: nat | Under(tree, f, p + [r]) ensures r < c.PageSize() && ram[g][r] != 0 {
      assert (p + [r])[|p|] == r && (p + [r])[..|p|] == p;
      var child := WayDown(c, ram, tree, g, f);
    }
    forall f | Under(tree, f, p) && f != g ensures InRows(tree, f, p, c.PageSize()) {
      if tree[f].path == p {
        PositionsUnique(c, ram, tree, f, g);
      }
    }
  }

  // ---------- Empty tables ----------

  /** A table the allocator may take: all rows zero, and not the one the walk stands on. */
  ghost predicate Candidate(c: Config, ram: Frames, tree: Tree, protected: int, f: int)
    requires Shape(c, ram)
  {
    IsTable(c, tree, f) && 0 <= f < |ram| && Empty(ram[f]) && f != protected
  }

  /** What the search for a free table has come to: a table and the address of its row, frame 0 if none. */
  datatype Unused = Unused(frame: int, link: int)

  /** u is the last candidate in depth-first order among those of the region, or was left at u0. */
  ghost predicate LastCandidate(c: Config, ram: Frames, tree: Tree, protected: int, region: set<int>,
                                u0: Unused, u: Unused)
    requires Shape(c, ram)
  {
    || (u == u0 && forall f :: f in region ==> !Candidate(c, ram, tree, protected, f))
    || (var g := u.frame;
        && g in region && Candidate(c, ram, tree, protected, g)
        && (g != 0 ==> tree[g].path != [] && tree[g].parent >= 0 && u.link == LinkAddress(c, tree, g))
        && forall f :: f in region && f != g && Candidate(c, ram, tree, protected, f) ==>
             Before(tree[f].path, tree[g].path))
  }

  function RowsRegion(tree: Tree, p: Path, n: nat): set<int> {
    set f | f in tree && InRows(tree, f, p, n)
  }

  function UnderRegion(tree: Tree, p: Path): set<int> {
    set f | f in tree && Under(tree, f, p)
  }

  /** m is the greater of m0 and the greatest frame of the region. */
  ghost predicate GreatestFrame(region: set<int>, m0: int, m: int) {
    && m0 <= m
    && (forall f :: f in region ==> f <= m)
    && (m == m0 || m in region)
  }

  // ---------- Cyclic distance ----------

  /** A 64-bit difference cast to a 32-bit signed integer. */
  function AsInt(x: int): int {
    var m := x % 0x1_0000_0000;
    if m < 0x8000_0000 then m else m - 0x1_0000_0000
  }

  function Abs(x: int): nat { if x < 0 then -x else x }

  /** As the code computes it, with its unsigned subtraction and its cast. */
  function CyclicDistance(c: Config, page: nat, other: nat): int
    requires c.Supported()
  {
    var absDelta := Abs(AsInt((page - other) % 0x1_0000_0000_0000_0000));
    Bags.Min(c.NumPages() - absDelta, absDelta)
  }

  lemma AsIntExact(x: int)
    requires -0x8000_0000 < x < 0x8000_0000
    ensures AsInt(x % 0x1_0000_0000_0000_0000) == x
  {
    var y := x % 0x1_0000_0000_0000_0000;
    assert y == if x < 0 then x + 0x1_0000_0000_0000_0000 else x;
    assert y % 0x1_0000_0000 == if x < 0 then x + 0x1_0000_0000 else x;
  }

  /** The cast loses nothing, and distinct pages are at positive distance. */
  lemma CyclicDistanceMeaning(c: Config, page: nat, other: nat)
    requires c.Supported() && page < c.NumPages() && other < c.NumPages()
    ensures CyclicDistance(c, page, other) == Bags.Min(c.NumPages() - Abs(page - other), Abs(page - other))
    ensures page != other ==> CyclicDistance(c, page, other) >= 1
    ensures CyclicDistance(c, page, other) == CyclicDistance(c, other, page)
  {
    hide AsInt;
    AsIntExact(page - other);
    AsIntExact(other - page);
  }

  function LeafDistance(c: Config, tree: Tree, page: nat, f: int): int
    requires c.Supported() && f in tree
  {
    CyclicDistance(c, page, PageOf(c, tree[f].path))
  }

  /** What the victim search has come to: a page at some distance, its frame and the address of its row. */
  datatype Choice = Choice(distance: int, page: int, frame: int, link: int)

  /** x is the first page of the region, in depth-first order, at the greatest cyclic distance, if that beats
      x0; otherwise x0 was kept. */
  ghost predicate Farthest(c: Config, tree: Tree, page: nat, region: set<int>, x0: Choice, x: Choice)
    requires c.Supported()
  {
    || (&& x == x0
        && forall f :: f in region && IsLeaf(c, tree, f) ==> LeafDistance(c, tree, page, f) <= x0.distance)
    || (var e := x.frame;
        && e in region && IsLeaf(c, tree, e) && x.page == PageOf(c, tree[e].path)
        && x.distance == LeafDistance(c, tree, page, e) && x.distance > x0.distance
        && tree[e].path != [] && tree[e].parent >= 0 && x.link == LinkAddress(c, tree, e)
        && (forall f :: f in region && IsLeaf(c, tree, f) ==> LeafDistance(c, tree, page, f) <= x.distance)
        && (forall f :: f in region && IsLeaf(c, tree, f) && LeafDistance(c, tree, page, f) == x.distance && f != e ==>
              Before(tree[e].path, tree[f].path)))
  }

  // ---------- Frames in use ----------

  /** The linked frames are {0, ..., used - 1} but for the one being moved, if any (hole), and every
      frame from used on is all zero. */
  ghost predicate Occupied(c: Config, ram: Frames, tree: Tree, used: int, hole: int) {
    && IsTree(c, ram, tree)
    && PagesInRange(c, tree)
    && 0 < used <= |ram|
    && (forall f :: f in tree <==> 0 <= f < used && f != hole)
    && (forall f :: used <= f < |ram| ==> Empty(ram[f]))
  }

  /** In a tree without pages and without free tables, every frame lies on the way to the protected table. */
  lemma {:induction false} LeadsToProtected(c: Config, ram: Frames, tree: Tree, protected: int, f: int)
    requires IsTree(c, ram, tree) && protected in tree && f in tree
    requires forall g :: !IsLeaf(c, tree, g) && !Candidate(c, ram, tree, protected, g)
    ensures tree[f].path <= tree[protected].path
    decreases c.TablesDepth() - |tree[f].path|
  {
    assert !IsLeaf(c, tree, f) && !Candidate(c, ram, tree, protected, f);
    if f != protected {
      var r :| 0 <= r < c.PageSize() && ram[f][r] != 0;
      var child := ram[f][r];
      assert tree[child] == Node(tree[f].path + [r], f);
      LeadsToProtected(c, ram, tree, protected, child);
      assert tree[f].path <= tree[child].path;
    }
  }

  /** Frames on one way down are at most one per level. */
  lemma {:induction false} ChainBound(c: Config, ram: Frames, tree: Tree, frames: set<int>, p: Path)
    requires IsTree(c, ram, tree)
    requires forall f :: f in frames ==> f in tree && tree[f].path <= p
    ensures |frames| <= |p| + 1
    decreases |p|
  {
    var last := set f | f in frames && tree[f].path == p;
    if exists f :: f in last {
      var f :| f in last;
      forall g | g in frames - {f} ensures p != [] && tree[g].path <= p[..|p| - 1] {
        if tree[g].path == p {
          PositionsUnique(c, ram, tree, f, g);
        }
      }
      if p == [] {
        assert frames - {f} == {};
        assert frames == {f};
      } else {
        ChainBound(c, ram, tree, frames - {f}, p[..|p| - 1]);
      }
    } else if p == [] {
      assert forall f :: f in frames ==> f in last;
    } else {
      forall f | f in frames ensures tree[f].path <= p[..|p| - 1] {
        assert f !in last;
      }
      ChainBound(c, ram, tree, frames, p[..|p| - 1]);
    }
  }

  /** Eviction always has a victim: when RAM is full and no table can be taken, some frame holds a page. */
  lemma VictimExists(c: Config, ram: Frames, tree: Tree, protected: int)
    requires Occupied(c, ram, tree, |ram|, -1) && IsTable(c, tree, protected)
    requires forall f :: !Candidate(c, ram, tree, protected, f)
    ensures exists f :: IsLeaf(c, tree, f)
  {
    if forall f :: !IsLeaf(c, tree, f) {
      forall f | f in tree ensures tree[f].path <= tree[protected].path {
        LeadsToProtected(c, ram, tree, protected, f);
      }
      ChainBound(c, ram, tree, Bags.Below(|ram|), tree[protected].path);
      assert false;
    }
  }

  /** Walk protection: only the protected table is empty among the tables on the way to it. */
  lemma WayIsNotCandidate(c: Config, ram: Frames, tree: Tree, protected: int, f: int)
    requires IsTree(c, ram, tree) && IsTable(c, tree, protected) && f in tree
    requires tree[f].path <= tree[protected].path
    ensures !Candidate(c, ram, tree, protected, f) && !IsLeaf(c, tree, f)
  {
    if tree[f].path == tree[protected].path {
      PositionsUnique(c, ram, tree, f, protected);
    } else {
      var child := WayDown(c, ram, tree, f, protected);
    }
  }

  // ---------- Joining the scans of two regions ----------

  lemma JoinCandidates(c: Config, ram: Frames, tree: Tree, protected: int, a: set<int>, b: set<int>,
                       u0: Unused, u1: Unused, u2: Unused)
    requires Shape(c, ram)
    requires LastCandidate(c, ram, tree, protected, a, u0, u1)
    requires LastCandidate(c, ram, tree, protected, b, u1, u2)
    requires forall f, g :: f in a && g in b ==> f in tree && g in tree && Before(tree[f].path, tree[g].path)
    ensures LastCandidate(c, ram, tree, protected, a + b, u0, u2)
  {
  }

  lemma JoinFarthest(c: Config, tree: Tree, page: nat, a: set<int>, b: set<int>,
                     x0: Choice, x1: Choice, x2: Choice)
    requires c.Supported()
    requires Farthest(c, tree, page, a, x0, x1)
    requires Farthest(c, tree, page, b, x1, x2)
    requires forall f, g :: f in a && g in b ==> f in tree && g in tree && Before(tree[f].path, tree[g].path)
    ensures Farthest(c, tree, page, a + b, x0, x2)
  {
  }

  lemma JoinGreatest(a: set<int>, b: set<int>, child: int, m0: int, m1: int, m2: int)
    requires GreatestFrame(a, m0, m1) && child in b
    requires GreatestFrame(b - {child}, if m1 < child then child else m1, m2)
    ensures GreatestFrame(a + b, m0, m2)
  {
    forall f | f in b && f != child ensures f <= m2 {
      assert f in b - {child};
    }
  }

  /** What a non-zero row of a table leads to. */
  lemma ChildOfRow(c: Config, ram: Frames, tree: Tree, g: int, r: nat)
    requires IsTree(c, ram, tree) && IsTable(c, tree, g) && r < c.PageSize() && ram[g][r] != 0
    ensures var p, child := tree[g].path, ram[g][r];
            && child in tree && |tree[child].path| == |p| + 1
            && PageOf(c, tree[child].path) == ShiftIn(c, PageOf(c, p), r)
            && tree[child].path != [] && tree[child].parent >= 0 && LinkAddress(c, tree, child) == Address(c, g, r)
  {
    var p := tree[g].path;
    assert tree[ram[g][r]] == Node(p + [r], g);
    assert (p + [r])[..|p|] == p;
  }

  /** The frames under one row of a table: none if it is zero, all that is under the child otherwise. */
  function RowRegion(ram: Frames, tree: Tree, g: int, r: nat): set<int>
    requires 0 <= g < |ram| && r < |ram[g]| && (ram[g][r] != 0 ==> ram[g][r] in tree)
  {
    if ram[g][r] == 0 then {} else UnderRegion(tree, tree[ram[g][r]].path)
  }

  lemma NextRow(c: Config, ram: Frames, tree: Tree, g: int, r: nat)
    requires IsTree(c, ram, tree) && IsTable(c, tree, g) && r < c.PageSize()
    ensures var p := tree[g].path;
            && RowsRegion(tree, p, r + 1) == RowsRegion(tree, p, r) + RowRegion(ram, tree, g, r)
            && (ram[g][r] != 0 ==> ram[g][r] in RowRegion(ram, tree, g, r))
            && (forall f, h :: f in RowsRegion(tree, p, r) && h in RowRegion(ram, tree, g, r) ==>
                  f in tree && h in tree && Before(tree[f].path, tree[h].path))
  {
    var p := tree[g].path;
    RowsStep(tree, p, r);
    RowsOfTable(c, ram, tree, g);
    if ram[g][r] != 0 {
      assert tree[ram[g][r]] == Node(p + [r], g);
    }
  }

  /** The victim search over one more row. */
  lemma FarthestNextRow(c: Config, ram: Frames, tree: Tree, page: nat, g: int, r: nat,
                        x0: Choice, x1: Choice, x2: Choice)
    requires IsTree(c, ram, tree) && IsTable(c, tree, g) && r < c.PageSize()
    requires Farthest(c, tree, page, RowsRegion(tree, tree[g].path, r), x0, x1)
    requires var child := ram[g][r];
             && (child == 0 ==> x2 == x1)
             && (child != 0 ==>
                   child in tree && Farthest(c, tree, page, UnderRegion(tree, tree[child].path), x1, x2))
    ensures Farthest(c, tree, page, RowsRegion(tree, tree[g].path, r + 1), x0, x2)
  {
    NextRow(c, ram, tree, g, r);
    JoinFarthest(c, tree, page, RowsRegion(tree, tree[g].path, r), RowRegion(ram, tree, g, r), x0, x1, x2);
  }

  /** The search for an empty table over one more row. */
  lemma CandidatesNextRow(c: Config, ram: Frames, tree: Tree, protected: int, g: int, r: nat,
                          u0: Unused, u1: Unused, u2: Unused)
    requires IsTree(c, ram, tree) && IsTable(c, tree, g) && r < c.PageSize()
    requires LastCandidate(c, ram, tree, protected, RowsRegion(tree, tree[g].path, r), u0, u1)
    requires var child := ram[g][r];
             && (child == 0 ==> u2 == u1)
             && (child != 0 ==>
                   && child in tree
                   && LastCandidate(c, ram, tree, protected, UnderRegion(tree, tree[child].path), u1, u2))
    ensures LastCandidate(c, ram, tree, protected, RowsRegion(tree, tree[g].path, r + 1), u0, u2)
  {
    NextRow(c, ram, tree, g, r);
    JoinCandidates(c, ram, tree, protected, RowsRegion(tree, tree[g].path, r), RowRegion(ram, tree, g, r), u0, u1, u2);
  }

  /** The search for the greatest frame over one more row. */
  lemma GreatestNextRow(c: Config, ram: Frames, tree: Tree, g: int, r: nat, m0: int, m1: int, m2: int)
    requires IsTree(c, ram, tree) && IsTable(c, tree, g) && r < c.PageSize()
    requires GreatestFrame(RowsRegion(tree, tree[g].path, r), m0, m1)
    requires var child := ram[g][r];
             && (child == 0 ==> m2 == m1)
             && (child != 0 ==>
                   && child in tree
                   && GreatestFrame(UnderRegion(tree, tree[child].path) - {child},
                                       if m1 < child then child else m1, m2))
    ensures GreatestFrame(RowsRegion(tree, tree[g].path, r + 1), m0, m2)
  {
    NextRow(c, ram, tree, g, r);
    if ram[g][r] != 0 {
      JoinGreatest(RowsRegion(tree, tree[g].path, r), RowRegion(ram, tree, g, r), ram[g][r], m0, m1, m2);
    }
  }

  /** A page alone is the farthest if it beats what came before. */
  lemma FarthestLeaf(c: Config, ram: Frames, tree: Tree, page: nat, f: int, link: int,
                     x0: Choice, x1: Choice)
    requires IsTree(c, ram, tree) && IsLeaf(c, tree, f)
    requires f != 0 ==> tree[f].path != [] && tree[f].parent >= 0 && link == LinkAddress(c, tree, f)
    requires var d := LeafDistance(c, tree, page, f);
             x1 == if d > x0.distance then Choice(d, PageOf(c, tree[f].path), f, link) else x0
    ensures Farthest(c, tree, page, UnderRegion(tree, tree[f].path), x0, x1)
  {
    SizesFactor(c);
    OnlyLeaf(c, ram, tree, f);
  }

  /** All rows of a table, and the table, are all there is under it. */
  lemma AllRows(c: Config, ram: Frames, tree: Tree, g: int)
    requires IsTree(c, ram, tree) && IsTable(c, tree, g)
    ensures var p := tree[g].path;
            && UnderRegion(tree, p) == RowsRegion(tree, p, c.PageSize()) + {g}
            && RowsRegion(tree, p, 0) == {}
            && g !in RowsRegion(tree, p, c.PageSize())
            && (Empty(ram[g]) ==> RowsRegion(tree, p, c.PageSize()) == {})
  {
    RowsOfTable(c, ram, tree, g);
    var p := tree[g].path;
    forall f | f in RowsRegion(tree, p, c.PageSize()) ensures !Empty(ram[g]) {
      assert tree[f].path[..|p| + 1] == p + [tree[f].path[|p|]];
      assert Under(tree, f, p + [tree[f].path[|p|]]);
    }
  }

  /** A page's frame is all there is under it. */
  lemma OnlyLeaf(c: Config, ram: Frames, tree: Tree, g: int)
    requires IsTree(c, ram, tree) && IsLeaf(c, tree, g)
    ensures UnderRegion(tree, tree[g].path) == {g}
  {
    forall f | f in UnderRegion(tree, tree[g].path) ensures f == g {
      assert tree[f].path == tree[g].path;
      PositionsUnique(c, ram, tree, f, g);
    }
  }

  // ---------- Where the scans start and end ----------

  lemma ScansStart(c: Config, ram: Frames, tree: Tree, protected: int, page: nat,
                   u0: Unused, m0: int, x0: Choice)
    requires Shape(c, ram)
    ensures LastCandidate(c, ram, tree, protected, {}, u0, u0) && GreatestFrame({}, m0, m0)
    ensures Farthest(c, tree, page, {}, x0, x0)
  {
  }

  /** No empty table and no further frame at a page. */
  lemma ScanOfLeaf(c: Config, ram: Frames, tree: Tree, protected: int, g: int, u0: Unused, m0: int)
    requires IsTree(c, ram, tree) && IsLeaf(c, tree, g)
    ensures LastCandidate(c, ram, tree, protected, UnderRegion(tree, tree[g].path), u0, u0)
    ensures GreatestFrame(UnderRegion(tree, tree[g].path) - {g}, m0, m0)
  {
    OnlyLeaf(c, ram, tree, g);
  }

  /** After its rows the table itself: it is the last candidate under it if it is one. */
  lemma ScanOfTable(c: Config, ram: Frames, tree: Tree, protected: int, g: int, link: int,
                    u0: Unused, u1: Unused, m0: int, m1: int)
    requires IsTree(c, ram, tree) && IsTable(c, tree, g)
    requires g != 0 ==> tree[g].path != [] && tree[g].parent >= 0 && link == LinkAddress(c, tree, g)
    requires LastCandidate(c, ram, tree, protected, RowsRegion(tree, tree[g].path, c.PageSize()), u0, u1)
    requires GreatestFrame(RowsRegion(tree, tree[g].path, c.PageSize()), m0, m1)
    ensures var takes := Empty(ram[g]) && g != protected;
            LastCandidate(c, ram, tree, protected, UnderRegion(tree, tree[g].path), u0,
                          if takes then Unused(g, link) else u1)
    ensures GreatestFrame(UnderRegion(tree, tree[g].path) - {g}, m0, m1)
  {
    AllRows(c, ram, tree, g);
    var rows := RowsRegion(tree, tree[g].path, c.PageSize());
    assert UnderRegion(tree, tree[g].path) - {g} == rows;
    assert Candidate(c, ram, tree, protected, g) <==> Empty(ram[g]) && g != protected;
  }

  /** A table is no page. */
  lemma FarthestOfTable(c: Config, ram: Frames, tree: Tree, page: nat, g: int, x0: Choice, x1: Choice)
    requires IsTree(c, ram, tree) && IsTable(c, tree, g)
    requires Farthest(c, tree, page, RowsRegion(tree, tree[g].path, c.PageSize()), x0, x1)
    ensures Farthest(c, tree, page, UnderRegion(tree, tree[g].path), x0, x1)
  {
    AllRows(c, ram, tree, g);
  }

  lemma NoRowsYet(tree: Tree, p: Path)
    ensures RowsRegion(tree, p, 0) == {}
  {
  }
}
