/** How large a chunk a zone is carved from: the smallest run of pages, up to a
    limit, that wastes the least of itself. */
module ZoneGeometry {
  import opened Wrappers

  const MAX_ALLOC: nat := 32 * 1024
  const ALIGN: nat := 8
  const UINT16: nat := 0x1_0000

  function AdjustSize(size: nat): (r: nat)
    ensures r % ALIGN == 0 && r >= ALIGN && r >= size
    ensures forall s: nat :: s % ALIGN == 0 && s >= ALIGN && s >= size ==> r <= s
  {
    var rounded := (size + ALIGN - 1) / ALIGN * ALIGN;
    if rounded < ALIGN then ALIGN else rounded
  }

  // ----- Waste

  /** The percentage of k pages that no element covers, rounded down. */
  function Waste(page: nat, elem: nat, k: nat): nat
    requires page > 0 && elem > 0 && k > 0
  {
    Percent(k * page % elem, k * page)
  }

  function Percent(part: nat, whole: nat): nat {
    if whole == 0 then 0 else part * 100 / whole
  }

  lemma MulLe(a: int, b: int, c: nat)
    requires a <= b
    ensures a * c <= b * c
  {}

  lemma Divided(a: nat, b: nat)
    requires b > 0
    ensures a == a / b * b + a % b && a % b < b
  {}

  lemma DivLess(a: nat, b: nat, q: nat)
    requires b > 0 && a < q * b
    ensures a / b < q
  {
    Divided(a, b);
    if a / b >= q {
      MulLe(q, a / b, b);
    }
  }

  lemma DivAtLeast(a: nat, b: nat, q: nat)
    requires b > 0 && q * b <= a
    ensures q <= a / b
  {
    Divided(a, b);
    if a / b < q {
      MulLe(a / b + 1, q, b);
    }
  }

  /** The only multiple of b within b of a is the quotient. */
  lemma DivIs(a: nat, b: nat, q: nat)
    requires b > 0 && q * b <= a < (q + 1) * b
    ensures a / b == q && a % b == a - q * b
  {
    DivLess(a, b, q + 1);
    DivAtLeast(a, b, q);
    Divided(a, b);
  }

  /** Pages that hold no element are all waste, and others never are. */
  lemma AllWasteIff(page: nat, elem: nat, k: nat)
    requires page > 0 && elem > 0 && k > 0
    ensures Waste(page, elem, k) == 100 <==> k * page < elem
    ensures Waste(page, elem, k) <= 100
  {
    var whole := k * page;
    MulLe(1, k, page);
    Divided(whole, elem);
    if whole < elem {
      DivIs(whole, elem, 0);
      DivIs(whole * 100, whole, 100);
    } else {
      DivLess(whole % elem * 100, whole, 100);
    }
  }

  lemma NoWaste(page: nat, elem: nat, k: nat)
    requires page > 0 && elem > 0 && k > 0 && k * page % elem == 0
    ensures Waste(page, elem, k) == 0
  {}

  // ----- The search

  /** k pages waste least, and strictly less than fewer pages do. */
  predicate Best(page: nat, elem: nat, limit: nat, k: nat)
    requires page > 0 && elem > 0
  {
    1 <= k <= limit
    && (forall j :: 1 <= j <= limit ==> Waste(page, elem, k) <= Waste(page, elem, j))
    && (forall j :: 1 <= j < k ==> Waste(page, elem, k) < Waste(page, elem, j))
  }

  lemma BestIsUnique(page: nat, elem: nat, limit: nat, k: nat, k': nat)
    requires page > 0 && elem > 0
    requires Best(page, elem, limit, k) && Best(page, elem, limit, k')
    ensures k == k'
  {
    assert Waste(page, elem, k) == Waste(page, elem, k');
  }

  /** The least number of pages that hold some bytes. */
  lemma PagesHold(page: nat, limit: nat, bytes: nat)
    requires page > 0 && 0 < bytes <= limit * page
    ensures 1 <= (bytes + page - 1) / page <= limit
    ensures (bytes + page - 1) / page * page >= bytes
  {
    Divided(bytes + page - 1, page);
    DivAtLeast(bytes + page - 1, page, 1);
    assert (limit + 1) * page == limit * page + page;
    DivLess(bytes + page - 1, page, limit + 1);
  }

  /** Where the limit leaves room for one element, the best pages hold one. */
  lemma BestHolds(page: nat, elem: nat, limit: nat, k: nat)
    requires page > 0 && elem > 0 && Best(page, elem, limit, k) && elem <= limit * page
    ensures elem <= k * page
  {
    PagesHold(page, limit, elem);
    var j := (elem + page - 1) / page;
    AllWasteIff(page, elem, j);
    AllWasteIff(page, elem, k);
  }

  lemma OwnSizeIsBest(page: nat, elem: nat, limit: nat)
    requires page > 0 && elem > 0 && elem % page == 0 && elem <= limit * page
    ensures elem / page * page == elem && Best(page, elem, limit, elem / page)
  {
    var k := elem / page;
    Divided(elem, page);
    assert (limit + 1) * page == limit * page + page;
    DivLess(elem, page, limit + 1);
    assert k != 0;
    DivIs(elem, elem, 1);
    NoWaste(page, elem, k);
    forall j | 1 <= j < k ensures Waste(page, elem, j) == 100 {
      MulLe(j + 1, k, page);
      assert (j + 1) * page == j * page + page;
      AllWasteIff(page, elem, j);
    }
  }

  lemma OnePageIsBest(page: nat, elem: nat, limit: nat)
    requires page > 0 && elem > 0 && page % elem == 0 && limit >= 1
    ensures Best(page, elem, limit, 1)
  {
    assert 1 * page == page;
    NoWaste(page, elem, 1);
  }

  /** The chunk size of a zone; None where the kernel panics. */
  ghost predicate IsGranule(page: nat, cpus: nat, elem: nat, percpu: bool, readonly: bool, limit: nat, r: Option<nat>)
    requires page > 0 && elem > 0
  {
    if percpu then r == if page % elem > 256 then None else Some(page * cpus)
    else if readonly then r == Some(page)
    else r.Some? && r.value % page == 0 && Best(page, elem, limit / page, r.value / page)
  }

  lemma WholePages(page: nat, k: nat)
    requires page > 0
    ensures k * page % page == 0 && k * page / page == k
  {
    DivIs(k * page, page, k);
  }

  method MinAllocGranule(page: nat, cpus: nat, elem: nat, percpu: bool, readonly: bool, limit: nat)
    returns (r: Option<nat>)
    requires page > 0 && 0 < elem <= limit && page <= limit && limit % page == 0
    ensures IsGranule(page, cpus, elem, percpu, readonly, limit, r)
  {
    hide Waste, Best;
    var granule := page;
    if percpu {
      granule := page * cpus;
      if page % elem > 256 {
        return None;
      }
    } else if readonly {
    } else {
      Divided(limit, page);
      DivAtLeast(limit, page, 1);
      DivIs(page, page, 1);
      if elem % page == 0 {
        granule := elem;
        OwnSizeIsBest(page, elem, limit / page);
      } else if page % elem == 0 {
        OnePageIsBest(page, elem, limit / page);
      } else {
        granule := SearchGranule(page, elem, limit, Percent(granule % elem, granule));
      }
    }
    return Some(granule);
  }

  lemma BestGrows(page: nat, elem: nat, k: nat, best: nat)
    requires page > 0 && elem > 0 && Best(page, elem, k, best)
    ensures Best(page, elem, k + 1, if Waste(page, elem, k + 1) < Waste(page, elem, best) then k + 1 else best)
  {
    hide Waste;
  }

  /** The loop of the search, from two pages up. */
  method SearchGranule(page: nat, elem: nat, limit: nat, onePage: nat) returns (granule: nat)
    requires page > 0 && elem > 0 && limit % page == 0 && limit >= page
    requires onePage == Percent(page % elem, page)
    ensures granule % page == 0 && Best(page, elem, limit / page, granule / page)
  {
    var frag := onePage;
    granule := page;
    var tmp := page + page;
    ghost var k, best := 1, 1;
    assert Best(page, elem, 1, 1);
    hide Best;
    while tmp <= limit
      invariant k >= 1 && best >= 1 && tmp == k * page + page && granule == best * page && k * page <= limit
      invariant Best(page, elem, k, best) && frag == Waste(page, elem, best)
      decreases limit - tmp
    {
      BestGrows(page, elem, k, best);
      k := k + 1;
      assert k * page == tmp;
      var fragTmp := Percent(tmp % elem, tmp);
      if fragTmp < frag {
        frag, granule, best := fragTmp, tmp, k;
      }
      tmp := tmp + page;
    }
    assert (k + 1) * page == k * page + page;
    DivIs(limit, page, k);
    WholePages(page, best);
  }

  // ----- The fields of a zone

  datatype Zone = Zone(elemSize: nat, chunkPages: nat, chunkElems: nat, elemOffs: nat)

  /** The fields as they are stored, each cut to sixteen bits. */
  function ZoneOf(page: nat, size: nat, alloc: nat, percpu: bool): Option<Zone>
    requires page > 0
  {
    var elem := size % UINT16;
    if elem == 0 then None
    else
      var chunk := if percpu then page else alloc;
      Some(Zone(elem, alloc / page % UINT16, chunk / elem % UINT16, chunk % elem % UINT16))
  }

  lemma FewerElements(alloc: nat, elem: nat)
    requires elem > 0
    ensures alloc / elem <= alloc
  {
    assert (alloc + 1) * elem > alloc by {
      MulLe(1, elem, alloc + 1);
    }
    DivLess(alloc, elem, alloc + 1);
  }

  /** A zone that is neither per-CPU nor read-only: its elements and the slack
      make up its chunk exactly, at least one element fits, and cutting the
      fields to sixteen bits loses nothing. */
  lemma ZoneGeometryHolds(page: nat, cpus: nat, size: nat, alloc: nat)
    requires page > 0 && MAX_ALLOC % page == 0 && size <= MAX_ALLOC
    requires IsGranule(page, cpus, AdjustSize(size), false, false, MAX_ALLOC, Some(alloc))
    ensures var z := ZoneOf(page, AdjustSize(size), alloc, false);
      z.Some? && z.value.elemSize == AdjustSize(size)
      && z.value.chunkPages * page == alloc <= MAX_ALLOC
      && z.value.chunkElems >= 1 && z.value.elemOffs < z.value.elemSize
      && z.value.chunkElems * z.value.elemSize + z.value.elemOffs == alloc
  {
    hide Waste, Best;
    var elem, limit, k := AdjustSize(size), MAX_ALLOC / page, alloc / page;
    assert elem <= MAX_ALLOC;
    Divided(MAX_ALLOC, page);
    Divided(alloc, page);
    BestHolds(page, elem, limit, k);
    BestInLimit(page, elem, limit, k);
    ChunkFields(page, elem, alloc);
  }

  lemma BestInLimit(page: nat, elem: nat, limit: nat, k: nat)
    requires page > 0 && elem > 0 && Best(page, elem, limit, k)
    ensures k * page <= limit * page
  {
    MulLe(k, limit, page);
  }

  lemma ChunkFields(page: nat, elem: nat, alloc: nat)
    requires page > 0 && alloc % page == 0 && 0 < elem <= alloc < UINT16
    ensures var z := ZoneOf(page, elem, alloc, false);
      z.Some? && z.value.elemSize == elem
      && z.value.chunkPages * page == alloc
      && z.value.chunkElems >= 1 && z.value.elemOffs < z.value.elemSize
      && z.value.chunkElems * z.value.elemSize + z.value.elemOffs == alloc
  {
    FewerElements(alloc, page);
    FewerElements(alloc, elem);
    Fits(elem);
    Fits(alloc / page);
    Fits(alloc / elem);
    Divided(alloc, elem);
    Divided(alloc, page);
    Fits(alloc % elem);
    DivAtLeast(alloc, elem, 1);
  }

  lemma Fits(x: nat)
    requires x < UINT16
    ensures x % UINT16 == x
  {}

  /** A per-CPU zone is carved page by page: its elements and the slack make up one
      page, of which it has one for each CPU. */
  lemma PerCpuHolds(page: nat, cpus: nat, elem: nat)
    requires page > 0 && 0 < elem < UINT16 && page < UINT16 && cpus < UINT16
    ensures var z := ZoneOf(page, elem, page * cpus, true);
      z.Some? && z.value.elemSize == elem && z.value.chunkPages == cpus
      && z.value.chunkElems * elem + z.value.elemOffs == page && z.value.elemOffs < elem
  {
    WholePages(page, cpus);
    assert page * cpus == cpus * page;
    FewerElements(page, elem);
    Fits(elem);
    Fits(cpus);
    Fits(page / elem);
    Divided(page, elem);
    Fits(page % elem);
  }

  /** A read-only zone is one page whatever its elements, so an element larger
      than the page fits nowhere. */
  lemma ReadOnlyHolds(page: nat, elem: nat)
    requires page > 0 && 0 < elem < UINT16 && page < UINT16
    ensures ZoneOf(page, elem, page, false).value.chunkElems >= 1 <==> elem <= page
  {
    Fits(elem);
    FewerElements(page, elem);
    Fits(page / elem);
    if elem <= page {
      DivAtLeast(page, elem, 1);
    } else {
      DivLess(page, elem, 1);
    }
  }
}
