/** How a virtual address splits into a page and an offset, and a page into one table row per level. */
module PagePaths {
  import opened MemoryConstants

  /** The rows followed from the root table, outermost first. */
  type Path = seq<nat>

  // Shifting right by k is division by Pow2(k); masking with PAGE_SIZE - 1 is the remainder.

  function FetchOffset(c: Config, virtualAddress: nat): (offset: nat)
    ensures offset < c.PageSize()
  {
    Mod(virtualAddress, c.PageSize())
  }

  function FetchPageAddress(c: Config, virtualAddress: nat): nat {
    Div(virtualAddress, c.PageSize())
  }

  /** The page is the address without its last PAGE_SIZE-digit, the offset is that digit. */
  lemma AddressParts(c: Config, virtualAddress: nat)
    ensures FetchPageAddress(c, virtualAddress) == virtualAddress / c.PageSize()
    ensures FetchOffset(c, virtualAddress) == virtualAddress % c.PageSize()
  {
    DivModMeaning(virtualAddress, c.PageSize());
  }

  /** Drop the last k digits of a page number. */
  function ShiftDigits(c: Config, address: nat, k: nat): nat {
    Div(address, Pow2(Times(k, c.offsetWidth)))
  }

  function FetchDepthOffset(c: Config, address: nat, depth: nat): (offset: nat)
    requires c.Supported() && depth < c.TablesDepth()
    ensures offset < c.PageSize()
  {
    FetchOffset(c, ShiftDigits(c, address, c.TablesDepth() - depth - 1))
  }

  lemma ShiftDigitsStep(c: Config, address: nat, k: nat)
    ensures ShiftDigits(c, address, 0) == address
    ensures ShiftDigits(c, address, k + 1) == Div(ShiftDigits(c, address, k), c.PageSize())
  {
    var w := c.offsetWidth;
    assert Times(k + 1, w) == w + Times(k, w);
    Pow2Add(w, Times(k, w));
    DivDiv(address, Pow2(Times(k, w)), Pow2(w));
    DivModUnique(address, 0, 1);
    TimesIsProduct(address, 1);
  }

  /** The first depth rows of the walk to a page. */
  function WalkPath(c: Config, page: nat, depth: nat): (p: Path)
    requires c.Supported() && depth <= c.TablesDepth()
    ensures |p| == depth && InRadix(c, p)
  {
    if depth == 0 then [] else WalkPath(c, page, depth - 1) + [FetchDepthOffset(c, page, depth - 1)]
  }

  /** The page number the victim search accumulates along a path: shift left one digit, add the row. */
  function PageOf(c: Config, p: Path): nat {
    if p == [] then 0 else ShiftIn(c, PageOf(c, p[..|p| - 1]), p[|p| - 1])
  }

  /** (page << OFFSET_WIDTH) + row */
  function ShiftIn(c: Config, page: nat, row: nat): nat {
    Times(page, c.PageSize()) + row
  }

  predicate InRadix(c: Config, p: Path) {
    forall i :: 0 <= i < |p| ==> p[i] < c.PageSize()
  }

  /** Depth-first order on paths that diverge. */
  ghost predicate Before(p: Path, q: Path) {
    exists i :: DivergesAt(p, q, i) && p[i] < q[i]
  }

  predicate DivergesAt(p: Path, q: Path, i: int) {
    0 <= i < |p| && i < |q| && p[..i] == q[..i]
  }

  lemma NothingLeft(c: Config, page: nat)
    requires c.Supported() && page < c.NumPages()
    ensures ShiftDigits(c, page, c.TablesDepth()) == 0
  {
    SizesFactor(c);
  }

  /** The first depth digits of a page number are the page number without its other digits. */
  lemma {:induction false} WalkPathPrefix(c: Config, page: nat, depth: nat)
    requires c.Supported() && depth <= c.TablesDepth() && page < c.NumPages()
    ensures PageOf(c, WalkPath(c, page, depth)) == ShiftDigits(c, page, c.TablesDepth() - depth)
  {
    hide ShiftDigits, Div, Mod, Times, Pow2;
    if depth == 0 {
      NothingLeft(c, page);
    } else {
      WalkPathPrefix(c, page, depth - 1);
      var k := c.TablesDepth() - depth;
      ShiftDigitsStep(c, page, k);
      assert WalkPath(c, page, depth)[..depth - 1] == WalkPath(c, page, depth - 1);
      DivModJoin(ShiftDigits(c, page, k), c.PageSize());
    }
  }

  /** Radix round trip: folding a page's rows gives the page back. */
  lemma RadixRoundTrip(c: Config, page: nat)
    requires c.Supported() && page < c.NumPages()
    ensures PageOf(c, WalkPath(c, page, c.TablesDepth())) == page
  {
    WalkPathPrefix(c, page, c.TablesDepth());
    ShiftDigitsStep(c, page, 0);
  }

  /** Paths of one length are determined by the number they fold to. */
  lemma {:induction false} PageOfInjective(c: Config, p: Path, q: Path)
    requires c.Supported() && |p| == |q| && InRadix(c, p) && InRadix(c, q)
    requires PageOf(c, p) == PageOf(c, q)
    ensures p == q
  {
    if p != [] {
      var n := |p| - 1;
      DivModUnique(PageOf(c, p[..n]), p[n], c.PageSize());
      DivModUnique(PageOf(c, q[..n]), q[n], c.PageSize());
      PageOfInjective(c, p[..n], q[..n]);
      assert p == p[..n] + [p[n]] && q == q[..n] + [q[n]];
    }
  }

  /** The other round trip: a full path is the walk to the page it folds to. */
  lemma PathRoundTrip(c: Config, p: Path)
    requires c.Supported() && |p| == c.TablesDepth() && InRadix(c, p) && PageOf(c, p) < c.NumPages()
    ensures WalkPath(c, PageOf(c, p), c.TablesDepth()) == p
  {
    RadixRoundTrip(c, PageOf(c, p));
    PageOfInjective(c, WalkPath(c, PageOf(c, p), c.TablesDepth()), p);
  }

  lemma {:induction false} WalkPathExtends(c: Config, page: nat, d: nat, e: nat)
    requires c.Supported() && d <= e <= c.TablesDepth()
    ensures WalkPath(c, page, d) <= WalkPath(c, page, e)
  {
    if d < e {
      WalkPathExtends(c, page, d, e - 1);
    }
  }

  /** Depth-first order on full paths is page order. */
  lemma {:induction false} BeforeIsPageOrder(c: Config, p: Path, q: Path, i: nat)
    requires c.Supported() && |p| == |q| && InRadix(c, p) && InRadix(c, q)
    requires DivergesAt(p, q, i) && p[i] < q[i]
    ensures PageOf(c, p) < PageOf(c, q)
  {
    var n := |p| - 1;
    var a, b := PageOf(c, p[..n]), PageOf(c, q[..n]);
    if i < n {
      assert p[..n][..i] == p[..i] && q[..n][..i] == q[..i];
      BeforeIsPageOrder(c, p[..n], q[..n], i);
    }
    DigitOrder(a, p[n], b, q[n], c.PageSize());
  }

  /** Distinct paths of one length are ordered. */
  lemma {:induction false} PathsComparable(p: Path, q: Path)
    requires |p| == |q| && p != q
    ensures Before(p, q) || Before(q, p)
  {
    var n := |p| - 1;
    if p[..n] == q[..n] {
      assert p == p[..n] + [p[n]] && q == q[..n] + [q[n]];
      assert DivergesAt(p, q, n) && DivergesAt(q, p, n);
    } else {
      PathsComparable(p[..n], q[..n]);
      if Before(p[..n], q[..n]) {
        var i :| DivergesAt(p[..n], q[..n], i) && p[..n][i] < q[..n][i];
        assert p[..n][..i] == p[..i] && q[..n][..i] == q[..i];
        assert DivergesAt(p, q, i);
      } else {
        var i :| DivergesAt(q[..n], p[..n], i) && q[..n][i] < p[..n][i];
        assert p[..n][..i] == p[..i] && q[..n][..i] == q[..i];
        assert DivergesAt(q, p, i);
      }
    }
  }
}
