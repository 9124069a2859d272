/** Size classes and the geometry of slots (src/storage/slab_allocator.cpp). A pointer is an offset
    into the arena. */
module SlabRules {
  const PAGE: nat := 0x10_0000
  const MIN_SLOT: nat := 64
  const MAX_SLOT: nat := 0x10_0000
  const CLASSES: nat := 15

  function Pow2(k: nat): (r: nat)
    ensures r >= 1
  {
    if k == 0 then 1 else 2 * Pow2(k - 1)
  }

  /** `kMinSlotSize << cls` */
  function SlotSize(c: nat): (r: nat)
    ensures r >= 1
  {
    MIN_SLOT * Pow2(c)
  }

  /** `std::bit_ceil`, found by doubling from `p`. */
  function BitCeil(n: nat, p: nat := 1): nat
    requires p >= 1
    decreases n - p
  {
    if p >= n then p else BitCeil(n, 2 * p)
  }

  /** `std::countr_zero` */
  function CountrZero(n: nat): nat
    requires n >= 1
  {
    if n % 2 == 1 then 0 else 1 + CountrZero(n / 2)
  }

  /** The class of a request, or CLASSES when no class is big enough. */
  function ClassForSize(size: nat): (c: nat)
    ensures c <= CLASSES && (c < CLASSES <==> size <= MAX_SLOT)
  {
    if size <= MIN_SLOT then 0
    else if size > MAX_SLOT then CLASSES
    else
      PowerOfClass(size);
      CountrZero(BitCeil(size)) - CountrZero(MIN_SLOT)
  }

  lemma {:induction false} CountrZeroPow2(k: nat)
    ensures CountrZero(Pow2(k)) == k
  {
    if k == 0 {
    } else {
      CountrZeroPow2(k - 1);
    }
  }

  /** `bit_ceil` returns a power of two that fits, and half of it does not. */
  lemma {:induction false} BitCeilPow2(n: nat, j: nat) returns (k: nat)
    requires j == 0 || Pow2(j - 1) < n
    ensures BitCeil(n, Pow2(j)) == Pow2(k) && k >= j
    ensures n <= Pow2(k) && (k > 0 ==> Pow2(k - 1) < n)
    decreases n - Pow2(j)
  {
    if Pow2(j) >= n { k := j; } else { k := BitCeilPow2(n, j + 1); }
  }

  lemma {:induction false} Pow2Monotone(i: nat, j: nat)
    requires i <= j
    ensures Pow2(i) <= Pow2(j)
    decreases j - i
  {
    if i == j {
    } else {
      Pow2Monotone(i, j - 1);
    }
  }

  lemma Pow2Values()
    ensures Pow2(6) == 64 && Pow2(20) == 0x10_0000
  {
    assert Pow2(4) == 16 && Pow2(8) == 256 && Pow2(12) == 4096 && Pow2(16) == 65536;
  }

  lemma PowerOfClass(size: nat)
    requires MIN_SLOT < size <= MAX_SLOT
    ensures BitCeil(size) >= 1 && CountrZero(MIN_SLOT) == 6 && 6 < CountrZero(BitCeil(size)) <= 20
    ensures var k := CountrZero(BitCeil(size)); Pow2(k - 1) < size <= Pow2(k)
  {
    Pow2Values();
    var k := BitCeilPow2(size, 0);
    CountrZeroPow2(k);
    CountrZeroPow2(6);
    if k <= 6 { Pow2Monotone(k, 6); }
    if k > 20 { Pow2Monotone(20, k - 1); }
  }

  /** The class of a size is the smallest whose slots are big enough. */
  lemma ClassIsSmallestFit(size: nat)
    requires size <= MAX_SLOT
    ensures size <= SlotSize(ClassForSize(size))
    ensures forall d: nat :: d < ClassForSize(size) ==> SlotSize(d) < size
  {
    if MIN_SLOT < size {
      PowerOfClass(size);
      var k := CountrZero(BitCeil(size));
      SlotIsPow2(k - 6);
      forall d: nat | d < k - 6 ensures SlotSize(d) < size {
        SlotIsPow2(d);
        Pow2Monotone(d + 6, k - 1);
      }
    }
  }

  lemma {:induction false} SlotIsPow2(c: nat)
    ensures SlotSize(c) == Pow2(c + 6)
  {
    Pow2Values();
    if c == 0 {
    } else {
      SlotIsPow2(c - 1);
    }
  }

  // ---------------------------------------------------------------- multiples

  /** `x` is a multiple of `s`, said without multiplication. */
  predicate Aligned(x: nat, s: nat)
    requires s >= 1
  {
    x == 0 || (x >= s && Aligned(x - s, s))
  }

  /** `i` times `s`. */
  function Times(i: nat, s: nat): nat { if i == 0 then 0 else Times(i - 1, s) + s }

  /** The largest multiple of `s` not above `x`. */
  function Floor(x: nat, s: nat): nat
    requires s >= 1
  {
    if x < s then 0 else Floor(x - s, s) + s
  }

  lemma {:induction false} TimesIsProduct(i: nat, s: nat)
    ensures Times(i, s) == i * s
  {
    if i == 0 {
    } else {
      TimesIsProduct(i - 1, s);
      assert (i - 1) * s + s == i * s;
    }
  }

  lemma {:induction false} AlignedGap(x: nat, y: nat, s: nat)
    requires s >= 1 && Aligned(x, s) && Aligned(y, s) && x < y
    ensures x + s <= y
  {
    if x == 0 {
    } else {
      AlignedGap(x - s, y - s, s);
    }
  }

  lemma {:induction false} AlignedHalf(x: nat, s: nat)
    requires s >= 1 && Aligned(x, 2 * s)
    ensures Aligned(x, s)
  {
    if x == 0 {
    } else {
      AlignedHalf(x - 2 * s, s);
      assert Aligned(x - s, s);
    }
  }

  lemma {:induction false} FloorAligned(x: nat, s: nat)
    requires s >= 1
    ensures Aligned(Floor(x, s), s) && Floor(x, s) <= x < Floor(x, s) + s
  {
    if x < s {
    } else {
      FloorAligned(x - s, s);
    }
  }

  lemma {:induction false} TimesAligned(i: nat, s: nat)
    requires s >= 1
    ensures Aligned(Times(i, s), s)
  {
    if i == 0 {
    } else {
      TimesAligned(i - 1, s);
    }
  }

  lemma {:induction false} TimesIncreases(i: nat, j: nat, s: nat)
    requires s >= 1 && i < j
    ensures Times(i, s) < Times(j, s)
    decreases j
  {
    if i == j - 1 {
    } else {
      TimesIncreases(i, j - 1, s);
    }
  }

  lemma {:induction false} AlignedIsTimes(x: nat, s: nat) returns (i: nat)
    requires s >= 1 && Aligned(x, s)
    ensures Times(i, s) == x
  {
    if x == 0 { i := 0; } else { i := AlignedIsTimes(x - s, s); i := i + 1; }
  }

  /** Pages hold a whole number of slots of every class. */
  lemma {:induction false} PageAligned(c: nat)
    requires c < CLASSES
    ensures Aligned(PAGE, SlotSize(c))
    decreases CLASSES - c
  {
    Pow2Values();
    if c == 14 {
      SlotIsPow2(14);
      assert Aligned(0, PAGE);
    } else {
      PageAligned(c + 1);
      assert SlotSize(c + 1) == 2 * SlotSize(c);
      AlignedHalf(PAGE, SlotSize(c));
    }
  }

  lemma WholeQuotient(x: nat, s: nat)
    requires s >= 1 && Aligned(x, s)
    ensures Times(x / s, s) == x
  {
    var k := AlignedIsTimes(x, s);
    ExactQuotient(x, s, k);
  }

  lemma ExactQuotient(x: nat, s: nat, k: nat)
    requires s >= 1 && x == Times(k, s)
    ensures x / s == k
  {
    TimesIsProduct(k, s);
    assert (k - x / s) * s == x % s;
    SmallMultiple(k - x / s, s);
  }

  lemma SmallMultiple(d: int, s: nat)
    requires 0 <= d * s < s
    ensures d == 0
  {
  }

  // ---------------------------------------------------------------- slots

  /** `p` is the start of a slot, given the class of each page handed out so far. */
  predicate IsSlot(pages: seq<nat>, p: nat) {
    p / PAGE < |pages| && Aligned(p % PAGE, SlotSize(pages[p / PAGE]))
  }

  function ClassAt(pages: seq<nat>, p: nat): nat
    requires p / PAGE < |pages|
  {
    pages[p / PAGE]
  }

  function SlotEnd(pages: seq<nat>, p: nat): nat
    requires p / PAGE < |pages|
  {
    p + SlotSize(ClassAt(pages, p))
  }

  predicate PagesOk(pages: seq<nat>) { forall i :: 0 <= i < |pages| ==> pages[i] < CLASSES }

  /** A slot lies inside its page. */
  lemma SlotInsidePage(pages: seq<nat>, p: nat)
    requires PagesOk(pages) && IsSlot(pages, p)
    ensures SlotEnd(pages, p) <= (p / PAGE + 1) * PAGE
  {
    PageAligned(ClassAt(pages, p));
    AlignedGap(p % PAGE, PAGE, SlotSize(ClassAt(pages, p)));
  }

  /** Two different slots never share a byte. */
  lemma SlotsDisjoint(pages: seq<nat>, p: nat, q: nat)
    requires PagesOk(pages) && IsSlot(pages, p) && IsSlot(pages, q) && p < q
    ensures SlotEnd(pages, p) <= q
  {
    if p / PAGE == q / PAGE {
      AlignedGap(p % PAGE, q % PAGE, SlotSize(ClassAt(pages, p)));
    } else {
      SlotInsidePage(pages, p);
    }
  }

  /** The start of the slot that covers byte `a`. */
  function SlotOf(pages: seq<nat>, a: nat): nat
    requires a / PAGE < |pages|
  {
    a / PAGE * PAGE + Floor(a % PAGE, SlotSize(pages[a / PAGE]))
  }

  predicate Covers(pages: seq<nat>, p: nat, a: nat)
    requires p / PAGE < |pages|
  {
    p <= a < SlotEnd(pages, p)
  }

  lemma SlotOfCovers(pages: seq<nat>, a: nat)
    requires PagesOk(pages) && a / PAGE < |pages|
    ensures IsSlot(pages, SlotOf(pages, a)) && Covers(pages, SlotOf(pages, a), a)
  {
    var r, s := a % PAGE, SlotSize(pages[a / PAGE]);
    FloorAligned(r, s);
    assert SlotOf(pages, a) / PAGE == a / PAGE && SlotOf(pages, a) % PAGE == Floor(r, s);
  }

  /** Slots tile the pages handed out: a byte is in a slot exactly when it is in one of these pages, and
      then in one slot only. */
  lemma SlotsTile(pages: seq<nat>, a: nat)
    requires PagesOk(pages)
    ensures a < |pages| * PAGE <==> exists p: nat :: IsSlot(pages, p) && Covers(pages, p, a)
    ensures forall p: nat, q: nat ::
              IsSlot(pages, p) && IsSlot(pages, q) && Covers(pages, p, a) && Covers(pages, q, a) ==> p == q
  {
    if a < |pages| * PAGE {
      SlotOfCovers(pages, a);
    }
    forall p: nat | IsSlot(pages, p) && Covers(pages, p, a) ensures a < |pages| * PAGE {
      SlotInsidePage(pages, p);
    }
    forall p: nat, q: nat | IsSlot(pages, p) && IsSlot(pages, q) && Covers(pages, p, a) && Covers(pages, q, a)
      ensures p == q
    {
      if p < q { SlotsDisjoint(pages, p, q); } else if q < p { SlotsDisjoint(pages, q, p); }
    }
  }
}

/** The allocator's tables as values: free lists, the class of each page handed out, and the slots
    currently out with callers. */
module SlabTables {
  import opened Sequences
  import opened SlabRules

  ghost predicate FreeListOk(ps: seq<nat>, c: nat, pages: seq<nat>, live: set<nat>) {
    && Distinct(ps)
    && (forall p :: p in ps ==> IsSlot(pages, p) && ClassAt(pages, p) == c && p !in live)
  }

  /** Every slot of the pages handed out is either live or on the free list of its class, once; nothing
      else is. With `SlotsTile`: free and live slots tile the pages exactly. */
  ghost predicate Tiled(free: seq<seq<nat>>, pages: seq<nat>, live: set<nat>) {
    && |free| == CLASSES && PagesOk(pages)
    && (forall c :: 0 <= c < CLASSES ==> FreeListOk(free[c], c, pages, live))
    && (forall p :: p in live ==> IsSlot(pages, p))
    && (forall p: nat :: IsSlot(pages, p) ==> p in live || p in free[ClassAt(pages, p)])
  }

  ghost predicate Handed(free: seq<seq<nat>>, live: set<nat>, p: nat) {
    p in live || exists c :: 0 <= c < |free| && p in free[c]
  }

  /** Free and live slots together tile the pages handed out: every byte of them is in exactly one, and
      none of them reaches beyond. */
  lemma FreeAndLiveTile(free: seq<seq<nat>>, pages: seq<nat>, live: set<nat>, a: nat)
    requires Tiled(free, pages, live)
    ensures forall p :: Handed(free, live, p) <==> IsSlot(pages, p)
    ensures a < |pages| * PAGE <==> exists p: nat :: IsSlot(pages, p) && Covers(pages, p, a)
    ensures forall p: nat, q: nat ::
              IsSlot(pages, p) && IsSlot(pages, q) && Covers(pages, p, a) && Covers(pages, q, a) ==> p == q
  {
    SlotsTile(pages, a);
    forall p: nat ensures Handed(free, live, p) <==> IsSlot(pages, p) {
      if IsSlot(pages, p) && p !in live {
        assert p in free[ClassAt(pages, p)];
      }
      if c :| 0 <= c < |free| && p in free[c] {
        assert FreeListOk(free[c], c, pages, live);
      }
    }
  }

  lemma PopKeepsTiled(free: seq<seq<nat>>, pages: seq<nat>, live: set<nat>, c: nat)
    requires Tiled(free, pages, live) && c < CLASSES && free[c] != []
    ensures var n := |free[c]| - 1;
            && free[c][n] !in live
            && IsSlot(pages, free[c][n]) && ClassAt(pages, free[c][n]) == c
            && Tiled(free[c := free[c][..n]], pages, live + {free[c][n]})
  {
  }

  lemma PushKeepsTiled(free: seq<seq<nat>>, pages: seq<nat>, live: set<nat>, p: nat)
    requires Tiled(free, pages, live) && p in live
    ensures var c := ClassAt(pages, p); c < CLASSES && Tiled(free[c := free[c] + [p]], pages, live - {p})
  {
  }

  /** A live slot of class `c`. */
  ghost predicate Returnable(pages: seq<nat>, live: set<nat>, p: nat, c: nat) {
    p in live && p / PAGE < |pages| && ClassAt(pages, p) == c
  }

  /** Any other pointer pushed onto a free list breaks the tiling. */
  lemma PushKeepsTiledIff(free: seq<seq<nat>>, pages: seq<nat>, live: set<nat>, p: nat, c: nat)
    requires Tiled(free, pages, live) && c < CLASSES
    ensures Tiled(free[c := free[c] + [p]], pages, live - {p}) <==> Returnable(pages, live, p, c)
  {
    var free' := free[c := free[c] + [p]];
    if Returnable(pages, live, p, c) {
      PushKeepsTiled(free, pages, live, p);
    } else {
      if j :| 0 <= j < |free[c]| && free[c][j] == p {
        assert free'[c][j] == free'[c][|free[c]|];
        assert !Distinct(free'[c]);
      }
      assert p in free'[c] && !FreeListOk(free'[c], c, pages, live - {p});
    }
  }

  /** The first `k` slots of page `n` when it is cut into slots of size `s`. */
  function PageSlots(n: nat, s: nat, k: nat): (ps: seq<nat>)
    ensures |ps| == k
    ensures forall i :: 0 <= i < k ==> ps[i] == n * PAGE + Times(i, s)
  {
    seq(k, i requires 0 <= i < k => n * PAGE + Times(i, s))
  }

  lemma PageSlotsDistinct(n: nat, s: nat, k: nat)
    requires s >= 1
    ensures Distinct(PageSlots(n, s, k))
  {
    forall i, j | 0 <= i < j < k ensures PageSlots(n, s, k)[i] != PageSlots(n, s, k)[j] { TimesIncreases(i, j, s); }
  }

  /** Cutting a whole page yields exactly the slots of that page. */
  lemma PageSlotsExact(n: nat, s: nat, k: nat, p: nat)
    requires s >= 1 && Times(k, s) == PAGE
    ensures p in PageSlots(n, s, k) <==> p / PAGE == n && Aligned(p % PAGE, s)
  {
    var ps := PageSlots(n, s, k);
    if p / PAGE == n && Aligned(p % PAGE, s) {
      var i := AlignedIsTimes(p % PAGE, s);
      if i > k { TimesIncreases(k, i, s); }
      assert ps[i] == p;
    } else if p in ps {
      var i :| 0 <= i < |ps| && ps[i] == p;
      TimesIncreases(i, k, s);
      TimesAligned(i, s);
    }
  }

  lemma AddPageKeepsTiled(free: seq<seq<nat>>, pages: seq<nat>, live: set<nat>, c: nat, k: nat)
    requires Tiled(free, pages, live) && c < CLASSES && Times(k, SlotSize(c)) == PAGE
    ensures Tiled(free[c := free[c] + PageSlots(|pages|, SlotSize(c), k)], pages + [c], live)
  {
    var ps, pages' := PageSlots(|pages|, SlotSize(c), k), pages + [c];
    var free' := free[c := free[c] + ps];
    forall d | 0 <= d < CLASSES ensures FreeListOk(free'[d], d, pages', live) {
      assert FreeListOk(free[d], d, pages, live);
      FreeListSurvives(free[d], d, pages, live, c);
      if d == c { FreeListExtends(free[c], c, pages, live, k); }
    }
    forall p: nat | IsSlot(pages', p) ensures p in live || p in free'[ClassAt(pages', p)] {
      if p / PAGE < |pages| {
        assert IsSlot(pages, p) && ClassAt(pages', p) == ClassAt(pages, p);
      } else {
        PageSlotsExact(|pages|, SlotSize(c), k, p);
      }
    }
  }

  lemma FreeListSurvives(ps: seq<nat>, d: nat, pages: seq<nat>, live: set<nat>, c: nat)
    requires FreeListOk(ps, d, pages, live)
    ensures FreeListOk(ps, d, pages + [c], live)
  {
  }

  lemma FreeListExtends(ps: seq<nat>, c: nat, pages: seq<nat>, live: set<nat>, k: nat)
    requires c < CLASSES && Times(k, SlotSize(c)) == PAGE
    requires FreeListOk(ps, c, pages, live) && forall p :: p in live ==> IsSlot(pages, p)
    ensures FreeListOk(ps + PageSlots(|pages|, SlotSize(c), k), c, pages + [c], live)
  {
    var qs := PageSlots(|pages|, SlotSize(c), k);
    PageSlotsDistinct(|pages|, SlotSize(c), k);
    forall q | q in qs ensures q / PAGE == |pages| && Aligned(q % PAGE, SlotSize(c)) {
      PageSlotsExact(|pages|, SlotSize(c), k, q);
    }
    forall i, j | 0 <= i < |ps| && 0 <= j < |qs| ensures ps[i] != qs[j] {
      assert ps[i] in ps && qs[j] in qs;
    }
  }
}

/** The allocator object. */
module SlabAllocators {
  import opened NodeInfos
  import opened SlabRules
  import opened SlabTables

  class SlabAllocator {
    const arena: array<byte>
    var freeSlots: seq<seq<nat>>
    var nextPage: nat
    ghost var pages: seq<nat>
    ghost var live: set<nat>

    ghost predicate Valid()
      reads this
    {
      && |freeSlots| == CLASSES && nextPage == |pages| && nextPage <= arena.Length / PAGE
      && Tiled(freeSlots, pages, live)
    }

    constructor (totalSize: nat)
      requires totalSize > 0
      ensures Valid() && fresh(arena) && arena.Length == totalSize && nextPage == 0 && live == {}
    {
      arena := new byte[totalSize](_ => 0);
      freeSlots := seq(CLASSES, _ => []);
      nextPage, pages, live := 0, [], {};
    }

    function PagesTotal(): nat { arena.Length / PAGE }

    method AssignPage(c: nat)
      requires Valid() && c < CLASSES
      modifies this
      ensures Valid() && live == old(live)
      ensures if old(nextPage) < PagesTotal()
              then pages == old(pages) + [c] && freeSlots[c] != []
              else pages == old(pages) && freeSlots == old(freeSlots)
    {
      if nextPage >= PagesTotal() { return; }
      var slotSize := SlotSize(c);
      var slotsPerPage := PAGE / slotSize;
      assert Aligned(PAGE, slotSize) by { PageAligned(c); }
      WholeQuotient(PAGE, slotSize);
      AddPageKeepsTiled(freeSlots, pages, live, c, slotsPerPage);
      var list := CutPage(freeSlots[c], nextPage, slotSize, slotsPerPage);
      nextPage := nextPage + 1;
      freeSlots := freeSlots[c := list];
      pages := pages + [c];
    }

    /** Fails only for a request above the largest class, or when the class has no free slot and no page
        is left; otherwise hands out a slot that was not live, of the class of the request. */
    method Allocate(size: nat) returns (ptr: Option<nat>)
      requires Valid()
      modifies this
      ensures Valid() && old(pages) <= pages
      ensures ptr.None? <==>
              size > MAX_SLOT || (old(freeSlots)[ClassForSize(size)] == [] && old(nextPage) == PagesTotal())
      ensures ptr.None? ==> live == old(live) && pages == old(pages) && freeSlots == old(freeSlots)
      ensures ptr.Some? ==>
                && ptr.value !in old(live) && live == old(live) + {ptr.value}
                && IsSlot(pages, ptr.value) && ClassAt(pages, ptr.value) == ClassForSize(size)
    {
      var c := ClassForSize(size);
      if c >= CLASSES { return None; }
      if freeSlots[c] == [] {
        AssignPage(c);
      }
      if freeSlots[c] == [] {
        return None;
      }
      PopKeepsTiled(freeSlots, pages, live, c);
      var slot := freeSlots[c][|freeSlots[c]| - 1];
      freeSlots := freeSlots[c := freeSlots[c][..|freeSlots[c]| - 1]];
      live := live + {slot};
      return Some(slot);
    }

    /** A request that is too large and a null pointer are ignored; anything else goes to the free list of
        the size's class unchecked. The allocator stays in order when callers return what they were given,
        with a size of the same class. */
    method Deallocate(ptr: Option<nat>, size: nat)
      requires Valid()
      modifies this
      ensures pages == old(pages) && nextPage == old(nextPage)
      ensures Valid() <==>
              ptr.None? || size > MAX_SLOT || Returnable(old(pages), old(live), ptr.value, ClassForSize(size))
      ensures if ptr.Some? && size <= MAX_SLOT
              then live == old(live) - {ptr.value}
                   && freeSlots == old(freeSlots)[ClassForSize(size) :=
                                                    old(freeSlots)[ClassForSize(size)] + [ptr.value]]
              else live == old(live) && freeSlots == old(freeSlots)
    {
      var c := ClassForSize(size);
      if c >= CLASSES || ptr.None? { return; }
      PushKeepsTiledIff(freeSlots, pages, live, ptr.value, c);
      freeSlots := freeSlots[c := freeSlots[c] + [ptr.value]];
      live := live - {ptr.value};
    }
  }

  method CutPage(free: seq<nat>, n: nat, slotSize: nat, slotsPerPage: nat) returns (list: seq<nat>)
    ensures list == free + PageSlots(n, slotSize, slotsPerPage)
  {
    list := free;
    for i := 0 to slotsPerPage
      invariant list == free + PageSlots(n, slotSize, i)
    {
      TimesIsProduct(i, slotSize);
      list := list + [n * PAGE + i * slotSize];
    }
  }
}
