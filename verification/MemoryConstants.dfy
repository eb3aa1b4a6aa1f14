/** The sizes every other part of the pager is written in terms of, for any choice of the three widths. */
module MemoryConstants {

  /** A machine word: a 32-bit signed integer. */
  type Word = w: int | -0x8000_0000 <= w < 0x8000_0000

  /** A page table or a page: one frame's worth of words. */
  type Page = seq<Word>

  // ---------- Arithmetic by unknown sizes ----------
  // Products, quotients and remainders by sizes that are not literals are defined by repeated addition and
  // subtraction, so that proofs about tables and pages see sums only. TimesIsProduct and DivModMeaning tie
  // them to the operators.

  function Pow2(n: nat): (p: nat)
    ensures p >= 1
  {
    if n == 0 then 1 else 2 * Pow2(n - 1)
  }

  function Times(a: nat, b: nat): nat {
    if a == 0 then 0 else Times(a - 1, b) + b
  }

  function Div(x: nat, d: nat): nat
    requires d >= 1
  {
    if x < d then 0 else Div(x - d, d) + 1
  }

  function Mod(x: nat, d: nat): (r: nat)
    requires d >= 1
    ensures r < d
  {
    if x < d then x else Mod(x - d, d)
  }

  lemma {:induction false} TimesIsProduct(a: nat, b: nat)
    ensures Times(a, b) == a * b
  {
    if a > 0 {
      TimesIsProduct(a - 1, b);
    }
  }

  lemma {:induction false} DivModJoin(x: nat, d: nat)
    requires d >= 1
    ensures Times(Div(x, d), d) + Mod(x, d) == x
  {
    if x >= d {
      DivModJoin(x - d, d);
    }
  }

  /** A number has one quotient and one remainder. */
  lemma {:induction false} DivModUnique(q: nat, r: nat, d: nat)
    requires r < d
    ensures Div(Times(q, d) + r, d) == q && Mod(Times(q, d) + r, d) == r
  {
    if q > 0 {
      DivModUnique(q - 1, r, d);
    }
  }

  lemma QuotientAndRemainder(x: nat, d: nat)
    requires d >= 1
    ensures x == (x / d) * d + x % d && x / d >= 0
  {
  }

  lemma {:induction false} DivModMeaning(x: nat, d: nat)
    requires d >= 1
    ensures Div(x, d) == x / d && Mod(x, d) == x % d
  {
    hide Div, Mod, Times;
    QuotientAndRemainder(x, d);
    var q, r := x / d, x % d;
    TimesIsProduct(q, d);
    DivModUnique(q, r, d);
  }

  lemma {:induction false} TimesMonotone(a: nat, b: nat, d: nat)
    requires a <= b
    ensures Times(a, d) <= Times(b, d)
  {
    if a < b {
      TimesMonotone(a, b - 1, d);
    }
  }

  lemma {:induction false} TimesAdds(a: nat, b: nat, d: nat)
    ensures Times(a + b, d) == Times(a, d) + Times(b, d)
  {
    if b > 0 {
      TimesAdds(a, b - 1, d);
      assert a + b - 1 == a + (b - 1);
    }
  }

  lemma {:induction false} TimesAssociates(a: nat, b: nat, d: nat)
    ensures Times(Times(a, b), d) == Times(a, Times(b, d))
  {
    if a > 0 {
      TimesAssociates(a - 1, b, d);
      TimesAdds(Times(a - 1, b), b, d);
    }
  }

  /** Dividing in two steps is dividing by the product. */
  lemma DivDiv(x: nat, a: nat, b: nat)
    requires a >= 1 && b >= 1
    ensures Times(b, a) >= 1 && Div(x, Times(b, a)) == Div(Div(x, a), b)
  {
    hide Div, Mod;
    var q, r := Div(x, a), Mod(x, a);
    var q', r' := Div(q, b), Mod(q, b);
    DivModJoin(x, a);
    DivModJoin(q, b);
    TimesAdds(Times(q', b), r', a);
    TimesAssociates(q', b, a);
    assert x == Times(q', Times(b, a)) + (Times(r', a) + r);
    TimesMonotone(r' + 1, b, a);
    DivModUnique(q', Times(r', a) + r, Times(b, a));
  }

  /** Two-digit numbers compare by their first digit, then their second. */
  lemma DigitOrder(a: nat, x: nat, b: nat, y: nat, d: nat)
    requires x < d
    requires a < b || (a == b && x < y)
    ensures Times(a, d) + x < Times(b, d) + y
  {
    if a < b {
      TimesMonotone(a + 1, b, d);
    }
  }

  lemma {:induction false} Pow2Add(a: nat, b: nat)
    ensures Pow2(a + b) == Times(Pow2(a), Pow2(b))
  {
    if a > 0 {
      Pow2Add(a - 1, b);
      TimesAdds(Pow2(a - 1), Pow2(a - 1), Pow2(b));
    } else {
      assert Times(1, Pow2(b)) == Times(0, Pow2(b)) + Pow2(b);
    }
  }

  lemma {:induction false} Pow2Monotone(a: nat, b: nat)
    requires a <= b
    ensures Pow2(a) <= Pow2(b)
  {
    if a < b {
      Pow2Monotone(a, b - 1);
    }
  }

  // ---------- The constants ----------

  /** How many digits of `digitWidth` bits it takes to hold `width` bits. */
  function DigitCount(width: nat, digitWidth: nat): nat
    requires digitWidth >= 1
  {
    if width == 0 then 0 else if width <= digitWidth then 1 else 1 + DigitCount(width - digitWidth, digitWidth)
  }

  /** DigitCount is the quotient rounded up. */
  lemma {:induction false} DigitCountIsCeiling(width: nat, digitWidth: nat)
    requires digitWidth >= 1
    ensures DigitCount(width, digitWidth) == Div(width, digitWidth) + (if Mod(width, digitWidth) == 0 then 0 else 1)
    ensures width <= Times(DigitCount(width, digitWidth), digitWidth)
  {
    if width >= digitWidth {
      DigitCountIsCeiling(width - digitWidth, digitWidth);
    } else if width > 0 {
      assert Times(1, digitWidth) == Times(0, digitWidth) + digitWidth;
    }
  }

  /** The three widths a build fixes; everything else is derived from them. */
  datatype Config = Config(offsetWidth: nat, physicalWidth: nat, virtualWidth: nat) {

    function PageSize(): nat { Pow2(offsetWidth) }

    function RamSize(): nat { Pow2(physicalWidth) }

    function VirtualMemorySize(): nat { Pow2(virtualWidth) }

    // The frame and page counts and the number of table levels are written without division;
    // SizesFactor states the quotients they stand for.

    function NumFrames(): nat
      requires offsetWidth <= physicalWidth
    {
      Pow2(physicalWidth - offsetWidth)
    }

    function NumPages(): nat
      requires offsetWidth <= virtualWidth
    {
      Pow2(virtualWidth - offsetWidth)
    }

    function TablesDepth(): nat
      requires 1 <= offsetWidth <= virtualWidth
    {
      DigitCount(virtualWidth - offsetWidth, offsetWidth)
    }

    /** What the pager needs of its constants: a walk of TablesDepth() tables and a page must fit in RAM,
        and frame numbers, page numbers and the row counters must fit in a word. */
    predicate Supported()
    {
      && 1 <= offsetWidth <= physicalWidth
      && offsetWidth < virtualWidth
      && TablesDepth() < NumFrames() < 0x8000_0000
      && NumPages() < 0x8000_0000
      && PageSize() < 0x8000_0000
    }
  }

  /** The derived sizes are the quotients of the build's constants, the number of levels is the page-number
      width over the offset width rounded up, and every page number has that many digits. */
  lemma SizesFactor(c: Config)
    requires 1 <= c.offsetWidth <= c.physicalWidth && c.offsetWidth < c.virtualWidth
    ensures c.PageSize() >= 2
    ensures c.RamSize() == c.NumFrames() * c.PageSize() && c.NumFrames() == c.RamSize() / c.PageSize()
    ensures c.VirtualMemorySize() == c.NumPages() * c.PageSize() && c.NumPages() == c.VirtualMemorySize() / c.PageSize()
    ensures var w := c.virtualWidth - c.offsetWidth;
            c.TablesDepth() == w / c.offsetWidth + (if w % c.offsetWidth == 0 then 0 else 1)
    ensures 1 <= c.NumPages() <= Pow2(Times(c.TablesDepth(), c.offsetWidth))
    ensures c.TablesDepth() >= 1
  {
    var w := c.virtualWidth - c.offsetWidth;
    Pow2Monotone(1, c.offsetWidth);
    SizeFactors(c.physicalWidth - c.offsetWidth, c.offsetWidth);
    SizeFactors(w, c.offsetWidth);
    DigitCountIsCeiling(w, c.offsetWidth);
    DivModMeaning(w, c.offsetWidth);
    Pow2Monotone(w, Times(c.TablesDepth(), c.offsetWidth));
  }

  /** No size, and so no address, overflows a signed 64-bit integer. */
  lemma AddressesFit(c: Config)
    requires c.Supported()
    ensures c.physicalWidth <= 60 && c.virtualWidth <= 60
    ensures c.RamSize() <= 0x1000_0000_0000_0000 && c.VirtualMemorySize() <= 0x1000_0000_0000_0000
  {
    WidthFits(c.offsetWidth);
    WidthFits(c.physicalWidth - c.offsetWidth);
    WidthFits(c.virtualWidth - c.offsetWidth);
    Pow2Monotone(c.physicalWidth, 60);
    Pow2Monotone(c.virtualWidth, 60);
    Pow2At30();
    SizeFactors(30, 30);
  }

  lemma Pow2At30()
    ensures Pow2(1) == 2 && Pow2(30) == 0x4000_0000
  {
    assert Pow2(5) == 32;
    SizeFactors(5, 5);
    SizeFactors(10, 10);
    SizeFactors(10, 20);
  }

  lemma WidthFits(w: nat)
    requires Pow2(w) < 0x8000_0000
    ensures w <= 30
  {
    Pow2At30();
    SizeFactors(1, 30);
    if w > 30 {
      Pow2Monotone(31, w);
    }
  }

  lemma SizeFactors(a: nat, b: nat)
    ensures Pow2(a + b) == Times(Pow2(a), Pow2(b)) == Pow2(a) * Pow2(b) && Pow2(a) == Pow2(a + b) / Pow2(b)
  {
    Pow2Add(a, b);
    TimesIsProduct(Pow2(a), Pow2(b));
    DivModUnique(Pow2(a), 0, Pow2(b));
    DivModMeaning(Pow2(a + b), Pow2(b));
  }
}
