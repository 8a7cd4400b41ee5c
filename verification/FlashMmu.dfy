/** The flash MMU shared by the instruction and data buses, and the decoded or translated
    code that the attached engines keep of the pages it maps. */
module FlashMmu {
  import opened Options

  // ----- geometry -----

  datatype Backing = FlashData | FlashInsn | Psram

  /** Page size, entry layout, what backs the two windows, and which backings the host has
      memory for. */
  datatype Geometry = Geometry(
    pageSize: nat, count: nat, tableBase: nat,
    physicalMask: bv32, invalidMask: bv32, targetMask: bv32, invalidEntry: bv32,
    dataSize: nat, insnSize: nat, psramSize: nat, hosted: set<Backing>)

  const WORD: nat := 0x1_0000_0000

  predicate PowerOfTwo(n: nat) { n == 1 || (n > 1 && n % 2 == 0 && PowerOfTwo(n / 2)) }

  const HOST_PAGE: nat := 4096

  /** The geometries the MMU is made for: pages of whole host pages, a table in the peripheral
      range, and an entry to start with that maps nothing. */
  ghost predicate GeometryOk(g: Geometry) {
    && HOST_PAGE <= g.pageSize < WORD && g.pageSize % HOST_PAGE == 0 && PowerOfTwo(g.pageSize)
    && 0 < g.count && 0 < g.tableBase && g.tableBase + 4 * g.count <= WORD
    && g.dataSize < WORD && g.insnSize < WORD && g.psramSize < WORD
    && Invalid(g, g.invalidEntry)
  }

  function SizeOf(g: Geometry, b: Backing): nat {
    match b
    case FlashData => g.dataSize
    case FlashInsn => g.insnSize
    case Psram => g.psramSize
  }

  // ----- entries -----

  predicate Invalid(g: Geometry, v: bv32) { v & g.invalidMask != 0 }

  predicate IsPsram(g: Geometry, v: bv32) { g.targetMask != 0 && v & g.targetMask != 0 }

  function PageNumber(g: Geometry, v: bv32): nat { (v & g.physicalMask) as nat }

  function MaskOf(g: Geometry): bv32 { g.physicalMask | g.invalidMask | g.targetMask }

  /** Page number times page size, in 32 bits. */
  function Physical(g: Geometry, v: bv32): nat { (PageNumber(g, v) * g.pageSize) % WORD }

  predicate Wraps(g: Geometry, v: bv32) { PageNumber(g, v) * g.pageSize >= WORD }

  function DataBacking(g: Geometry, v: bv32): Backing { if IsPsram(g, v) then Psram else FlashData }

  function InsnBacking(g: Geometry, v: bv32): Backing { if IsPsram(g, v) then Psram else FlashInsn }

  predicate Fits(g: Geometry, b: Backing, physical: nat) {
    physical <= SizeOf(g, b) && g.pageSize <= SizeOf(g, b) - physical
  }

  datatype Mapping = Unmapped | Mapped(backing: Backing, physical: nat)

  predicate InRange(g: Geometry, v: bv32) {
    !Invalid(g, v) && Fits(g, DataBacking(g, v), Physical(g, v)) && Fits(g, InsnBacking(g, v), Physical(g, v))
  }

  /** A page pair is mapped when its entry is valid, in range of both backings, and both are
      there. */
  predicate Usable(g: Geometry, v: bv32) {
    InRange(g, v) && DataBacking(g, v) in g.hosted && InsnBacking(g, v) in g.hosted
  }

  function DataMapping(g: Geometry, v: bv32): Mapping {
    if Usable(g, v) then Mapped(DataBacking(g, v), Physical(g, v)) else Unmapped
  }

  function InsnMapping(g: Geometry, v: bv32): Mapping {
    if Usable(g, v) then Mapped(InsnBacking(g, v), Physical(g, v)) else Unmapped
  }

  /** What the bits of an entry say: any bit of the target mask makes it map PSRAM, */
  lemma TargetByBits(g: Geometry, v: bv32)
    ensures IsPsram(g, v) <==> v & g.targetMask != 0
  {
    if g.targetMask == 0 {
      SelectsNothing(v, g.targetMask);
    }
  }

  lemma SelectsNothing(v: bv32, mask: bv32)
    requires mask == 0
    ensures v & mask == 0
  {
  }

  /** any bit of the invalid mask makes it map nothing, */
  lemma InvalidByBits(g: Geometry, v: bv32, selected: bv32)
    requires selected == v & g.invalidMask
    ensures Invalid(g, v) <==> selected != 0
  {
  }

  /** and the bits that its page mask selects are a page number; the page starts at that many page
      sizes, in 32 bits. */
  lemma PageByBits(g: Geometry, v: bv32, masked: bv32, page: nat)
    requires masked == v & g.physicalMask && page == masked as nat
    ensures PageNumber(g, v) == page && Physical(g, v) == (page * g.pageSize) % 0x1_0000_0000
  {
  }

  /** Where each window shows what, if it shows anything. */
  lemma MappedExactly(g: Geometry, v: bv32)
    ensures var p, psram := Physical(g, v), IsPsram(g, v);
            var mapped :=
              && !Invalid(g, v)
              && p + g.pageSize <= (if psram then g.psramSize else g.dataSize)
              && p + g.pageSize <= (if psram then g.psramSize else g.insnSize)
              && (if psram then Psram in g.hosted else FlashData in g.hosted && FlashInsn in g.hosted);
            && DataMapping(g, v) == (if mapped then Mapped(if psram then Psram else FlashData, p) else Unmapped)
            && InsnMapping(g, v) == (if mapped then Mapped(if psram then Psram else FlashInsn, p) else Unmapped)
  {
  }

  // ----- cached code -----

  /** For each page of the instruction window that has cached code, the bytes the code was made from. */
  type Cache = map<nat, seq<bv8>>

  /** Predecode tables and translators, by identity: engines may share either. */
  datatype Caches = Caches(predecode: map<nat, Cache>, jit: map<nat, Cache>)

  datatype Engine = Engine(predecode: Option<nat>, jit: Option<nat>)

  function CacheIn(m: map<nat, Cache>, id: Option<nat>): Cache {
    if id.Some? && id.value in m then m[id.value] else map[]
  }

  function Without(m: map<nat, Cache>, id: Option<nat>, page: nat): map<nat, Cache> {
    if id.Some? && id.value in m then m[id.value := m[id.value] - {page}] else m
  }

  /** Drop everything an engine keeps of a page. */
  function Dropped(c: Caches, e: Engine, page: nat): Caches {
    Caches(Without(c.predecode, e.predecode, page), Without(c.jit, e.jit, page))
  }

  predicate Keeps(c: Caches, e: Engine, page: nat) {
    page in CacheIn(c.predecode, e.predecode) || page in CacheIn(c.jit, e.jit)
  }

  /** Dropping through one engine never adds code to another. */
  lemma DropShrinks(c: Caches, e: Engine, f: Engine, page: nat)
    ensures var d := Dropped(c, e, page);
      CacheIn(d.predecode, f.predecode).Items <= CacheIn(c.predecode, f.predecode).Items
      && CacheIn(d.jit, f.jit).Items <= CacheIn(c.jit, f.jit).Items
    ensures !Keeps(Dropped(c, e, page), e, page)
  {
  }

  /** Every item of `d` is an item of `c`. */
  ghost predicate Within(d: Caches, c: Caches, e: Engine) {
    CacheIn(d.predecode, e.predecode).Items <= CacheIn(c.predecode, e.predecode).Items
    && CacheIn(d.jit, e.jit).Items <= CacheIn(c.jit, e.jit).Items
  }

  /** The two execution engines that may be attached. */
  datatype Attached = Attached(cpu0: Option<Engine>, cpu1: Option<Engine>)

  predicate IsAttached(a: Attached, e: Engine) { a.cpu0 == Some(e) || a.cpu1 == Some(e) }

  /** Invalidate a page on both engines. Engines that share their predecode table and their
      translator need it once. */
  function Invalidated(c: Caches, a: Attached, page: nat): Caches {
    var first := if a.cpu0.Some? then Dropped(c, a.cpu0.value, page) else c;
    if a.cpu1.None? || a.cpu1 == a.cpu0 then first else Dropped(first, a.cpu1.value, page)
  }

  lemma WithinKeeps(d: Caches, c: Caches, e: Engine, page: nat)
    requires Within(d, c, e) && Keeps(d, e, page)
    ensures Keeps(c, e, page)
  {
    if page in CacheIn(d.predecode, e.predecode) {
      assert (page, CacheIn(d.predecode, e.predecode)[page]) in CacheIn(c.predecode, e.predecode).Items;
    } else {
      assert (page, CacheIn(d.jit, e.jit)[page]) in CacheIn(c.jit, e.jit).Items;
    }
  }

  /** After an invalidation no attached engine keeps code of the page, and none has gained any. */
  lemma InvalidationReachesAll(c: Caches, a: Attached, page: nat, e: Engine)
    requires IsAttached(a, e)
    ensures Within(Invalidated(c, a, page), c, e) && !Keeps(Invalidated(c, a, page), e, page)
  {
    var first := if a.cpu0.Some? then Dropped(c, a.cpu0.value, page) else c;
    if a.cpu0.Some? {
      DropShrinks(c, a.cpu0.value, e, page);
    }
    if a.cpu1.Some? && a.cpu1 != a.cpu0 {
      DropShrinks(first, a.cpu1.value, e, page);
      if Keeps(Invalidated(c, a, page), e, page) {
        WithinKeeps(Invalidated(c, a, page), first, e, page);
      }
    }
  }

  // ----- coherence -----

  /** What the backings hold. */
  datatype Contents = Contents(flash: seq<bv8>, psram: seq<bv8>)

  function BytesAt(k: Contents, m: Mapping, n: nat): seq<bv8>
    requires m.Mapped?
  {
    var b := if m.backing.Psram? then k.psram else k.flash;
    if m.physical + n <= |b| then b[m.physical..m.physical + n] else []
  }

  /** Cached code of a page was made from the bytes the page shows now. */
  ghost predicate PageFresh(irom: seq<Mapping>, k: Contents, n: nat, page: nat, bytes: seq<bv8>) {
    page < |irom| && irom[page].Mapped? && bytes == BytesAt(k, irom[page], n)
  }

  ghost predicate CacheFresh(irom: seq<Mapping>, k: Contents, n: nat, c: Cache) {
    forall page :: page in c ==> PageFresh(irom, k, n, page, c[page])
  }

  ghost predicate EngineFresh(irom: seq<Mapping>, k: Contents, n: nat, c: Caches, e: Engine) {
    CacheFresh(irom, k, n, CacheIn(c.predecode, e.predecode)) && CacheFresh(irom, k, n, CacheIn(c.jit, e.jit))
  }

  ghost predicate AllFresh(irom: seq<Mapping>, k: Contents, n: nat, c: Caches, a: Attached) {
    forall e :: IsAttached(a, e) ==> EngineFresh(irom, k, n, c, e)
  }

  /** Pages that still show the same bytes, and a cache that only lost items. */
  lemma CacheStaysFresh(irom: seq<Mapping>, k: Contents, irom': seq<Mapping>, k': Contents, n: nat, c: Cache, d: Cache)
    requires CacheFresh(irom, k, n, c) && d.Items <= c.Items
    requires forall page, bytes :: page in d && PageFresh(irom, k, n, page, bytes) ==>
               PageFresh(irom', k', n, page, bytes)
    ensures CacheFresh(irom', k', n, d)
  {
    forall page | page in d
      ensures PageFresh(irom', k', n, page, d[page])
    {
      assert (page, d[page]) in c.Items;
    }
  }

  /** A change that affects only pages no attached engine keeps leaves all caches fresh. */
  lemma StaysFresh(irom: seq<Mapping>, k: Contents, irom': seq<Mapping>, k': Contents, n: nat, c: Caches, d: Caches,
                   a: Attached)
    requires AllFresh(irom, k, n, c, a) && forall e :: IsAttached(a, e) ==> Within(d, c, e)
    requires forall e, page, bytes :: IsAttached(a, e) && Keeps(d, e, page) && PageFresh(irom, k, n, page, bytes) ==>
               PageFresh(irom', k', n, page, bytes)
    ensures AllFresh(irom', k', n, d, a)
  {
    forall e | IsAttached(a, e)
      ensures EngineFresh(irom', k', n, d, e)
    {
      assert EngineFresh(irom, k, n, c, e);
      forall page, bytes | page in CacheIn(d.predecode, e.predecode) && PageFresh(irom, k, n, page, bytes)
        ensures PageFresh(irom', k', n, page, bytes)
      {
        assert Keeps(d, e, page);
      }
      forall page, bytes | page in CacheIn(d.jit, e.jit) && PageFresh(irom, k, n, page, bytes)
        ensures PageFresh(irom', k', n, page, bytes)
      {
        assert Keeps(d, e, page);
      }
      CacheStaysFresh(irom, k, irom', k', n, CacheIn(c.predecode, e.predecode), CacheIn(d.predecode, e.predecode));
      CacheStaysFresh(irom, k, irom', k', n, CacheIn(c.jit, e.jit), CacheIn(d.jit, e.jit));
    }
  }

  /** Remapping a page and invalidating it. */
  lemma RemapStaysFresh(irom: seq<Mapping>, k: Contents, n: nat, c: Caches, a: Attached, index: nat, m: Mapping)
    requires AllFresh(irom, k, n, c, a) && index < |irom|
    ensures AllFresh(irom[index := m], k, n, Invalidated(c, a, index), a)
  {
    var d := Invalidated(c, a, index);
    forall e | IsAttached(a, e)
      ensures Within(d, c, e) && !Keeps(d, e, index)
    {
      InvalidationReachesAll(c, a, index, e);
    }
    StaysFresh(irom, k, irom[index := m], k, n, c, d, a);
  }

  // ----- flash changes -----

  /** The test by which a reported change of flash finds the pages it concerns. */
  predicate Noticed(g: Geometry, v: bv32, offset: nat, size: nat)
    requires g.pageSize > 0 && size > 0
  {
    !Invalid(g, v) && !IsPsram(g, v) && offset / g.pageSize <= PageNumber(g, v) <= (offset + size - 1) / g.pageSize
  }

  predicate Overlap(a: nat, n: nat, b: nat, m: nat) { a < b + m && b < a + n }

  lemma Product(p: nat, q: nat, n: nat)
    requires p < q
    ensures p * n + n <= q * n
  {
    var d := q - p - 1;
    assert q * n == p * n + n + d * n;
  }

  lemma DivisionBounds(x: nat, n: nat)
    requires n > 0
    ensures x / n * n <= x < x / n * n + n
  {
  }

  /** A page that overlaps a change is one of the pages the change touches. */
  lemma PageTouched(n: nat, page: nat, offset: nat, size: nat)
    requires n > 0 && size > 0 && Overlap(page * n, n, offset, size)
    ensures offset / n <= page <= (offset + size - 1) / n
  {
    var first, last := offset / n, (offset + size - 1) / n;
    DivisionBounds(offset, n);
    DivisionBounds(offset + size - 1, n);
    if page < first {
      Product(page, first, n);
    }
    if page > last {
      Product(last, page, n);
    }
  }

  /** A page number beyond 32 bits of offset is beyond every page of the flash. */
  lemma PageBeyond(n: nat, page: nat, physical: nat)
    requires n > 0 && physical < WORD <= page * n
    ensures physical / n < page
  {
    DivisionBounds(physical, n);
    if physical / n > page {
      Product(page, physical / n, n);
    }
  }

  /** For an entry that maps flash, every change to its bytes is noticed if and only if its
      page offset did not wrap around 32 bits. */
  lemma NoticedExactly(g: Geometry, v: bv32)
    requires GeometryOk(g) && !Invalid(g, v) && !IsPsram(g, v)
    ensures (forall offset: nat, size: nat :: size > 0 && Overlap(Physical(g, v), g.pageSize, offset, size) ==>
              Noticed(g, v, offset, size))
       <==> !Wraps(g, v)
  {
    if Wraps(g, v) {
      var offset := Physical(g, v);
      PageBeyond(g.pageSize, PageNumber(g, v), offset);
      assert Overlap(offset, g.pageSize, offset, 1) && !Noticed(g, v, offset, 1);
    } else {
      forall offset: nat, size: nat | size > 0 && Overlap(Physical(g, v), g.pageSize, offset, size)
        ensures Noticed(g, v, offset, size)
      {
        ChangeNoticed(g, v, offset, size);
      }
    }
  }

  lemma ChangeNoticed(g: Geometry, v: bv32, offset: nat, size: nat)
    requires GeometryOk(g) && !Invalid(g, v) && !IsPsram(g, v) && !Wraps(g, v)
    requires size > 0 && Overlap(Physical(g, v), g.pageSize, offset, size)
    ensures Noticed(g, v, offset, size)
  {
    PhysicalOf(g, v, PageNumber(g, v) * g.pageSize);
    PageTouched(g.pageSize, PageNumber(g, v), offset, size);
  }

  lemma PhysicalOf(g: Geometry, v: bv32, x: nat)
    requires x == PageNumber(g, v) * g.pageSize && !Wraps(g, v)
    ensures Physical(g, v) == x
  {
    assert x % WORD == x;
  }

  lemma SameSlice(s: seq<bv8>, t: seq<bv8>, a: nat, n: nat, offset: nat, data: seq<bv8>)
    requires a + n <= |s| && offset + |data| <= |s| && t == s[..offset] + data + s[offset + |data|..]
    requires !Overlap(a, n, offset, |data|) && |data| > 0 && n > 0
    ensures s[a..a + n] == t[a..a + n]
  {
  }

  ghost predicate AllWithin(d: Caches, c: Caches, a: Attached) { forall e :: IsAttached(a, e) ==> Within(d, c, e) }

  ghost predicate NobodyKeeps(d: Caches, a: Attached, page: nat) { forall e :: IsAttached(a, e) ==> !Keeps(d, e, page) }

  lemma InvalidationStep(c: Caches, d: Caches, a: Attached, page: nat)
    requires AllWithin(d, c, a)
    ensures AllWithin(Invalidated(d, a, page), c, a) && NobodyKeeps(Invalidated(d, a, page), a, page)
    ensures forall p :: NobodyKeeps(d, a, p) ==> NobodyKeeps(Invalidated(d, a, page), a, p)
  {
    var f := Invalidated(d, a, page);
    forall e | IsAttached(a, e)
      ensures Within(f, c, e) && !Keeps(f, e, page) && Within(f, d, e)
    {
      InvalidationReachesAll(d, a, page, e);
    }
    forall p, e | NobodyKeeps(d, a, p) && IsAttached(a, e)
      ensures !Keeps(f, e, p)
    {
      if Keeps(f, e, p) {
        WithinKeeps(f, d, e, p);
      }
    }
  }

  /** What an engine keeps of a page. */
  function Kept(c: Caches, e: Engine, page: nat): (Option<seq<bv8>>, Option<seq<bv8>>) {
    var p, j := CacheIn(c.predecode, e.predecode), CacheIn(c.jit, e.jit);
    (if page in p then Some(p[page]) else None, if page in j then Some(j[page]) else None)
  }

  ghost predicate Unmoved(c: Caches, d: Caches, a: Attached, page: nat) {
    forall e :: IsAttached(a, e) ==> Kept(d, e, page) == Kept(c, e, page)
  }

  lemma DropKeepsOthers(c: Caches, e: Engine, f: Engine, page: nat, other: nat)
    requires other != page
    ensures Kept(Dropped(c, e, page), f, other) == Kept(c, f, other)
  {
  }

  lemma OthersUnmoved(c: Caches, d: Caches, a: Attached, page: nat, other: nat)
    requires other != page && Unmoved(c, d, a, other)
    ensures Unmoved(c, Invalidated(d, a, page), a, other)
  {
    var first := if a.cpu0.Some? then Dropped(d, a.cpu0.value, page) else d;
    forall e | IsAttached(a, e)
      ensures Kept(Invalidated(d, a, page), e, other) == Kept(c, e, other)
    {
      if a.cpu0.Some? {
        DropKeepsOthers(d, a.cpu0.value, e, page, other);
      }
      if a.cpu1.Some? && a.cpu1 != a.cpu0 {
        DropKeepsOthers(first, a.cpu1.value, e, page, other);
      }
    }
  }

  lemma OthersKept(c: Caches, a: Attached, page: nat)
    ensures forall i: nat :: i != page ==> Unmoved(c, Invalidated(c, a, page), a, i)
  {
    forall i: nat | i != page
      ensures Unmoved(c, Invalidated(c, a, page), a, i)
    {
      OthersUnmoved(c, c, a, page, i);
    }
  }

  /** The loop over the table that follows a reported change of flash. */
  method ChangeReported(g: Geometry, entry: seq<bv32>, c: Caches, a: Attached, offset: nat, size: nat)
    returns (d: Caches)
    requires g.pageSize > 0 && size > 0
    ensures AllWithin(d, c, a)
    ensures forall i :: 0 <= i < |entry| && Noticed(g, entry[i], offset, size) ==> NobodyKeeps(d, a, i)
    ensures forall i :: 0 <= i < |entry| && !Noticed(g, entry[i], offset, size) ==> Unmoved(c, d, a, i)
    ensures forall i ::
      0 <= i < |entry| && !Invalid(g, entry[i]) && !IsPsram(g, entry[i])
      && offset / g.pageSize <= PageNumber(g, entry[i]) <= (offset + size - 1) / g.pageSize ==>
        NobodyKeeps(d, a, i)
    ensures forall i ::
      0 <= i < |entry|
      && (Invalid(g, entry[i]) || IsPsram(g, entry[i]) || PageNumber(g, entry[i]) < offset / g.pageSize
          || (offset + size - 1) / g.pageSize < PageNumber(g, entry[i])) ==>
        Unmoved(c, d, a, i)
  {
    d := c;
    for i := 0 to |entry|
      invariant AllWithin(d, c, a)
      invariant forall j :: 0 <= j < i && Noticed(g, entry[j], offset, size) ==> NobodyKeeps(d, a, j)
      invariant forall j :: 0 <= j < |entry| && (j >= i || !Noticed(g, entry[j], offset, size)) ==> Unmoved(c, d, a, j)
    {
      if Noticed(g, entry[i], offset, size) {
        InvalidationStep(c, d, a, i);
        forall j | 0 <= j < |entry| && j != i && Unmoved(c, d, a, j)
          ensures Unmoved(c, Invalidated(d, a, i), a, j)
        {
          OthersUnmoved(c, d, a, i, j);
        }
        d := Invalidated(d, a, i);
      }
    }
  }

  /** No page offset of this chip wraps. */
  ghost predicate NoWrap(g: Geometry) { forall v: bv32 :: !Wraps(g, v) }

  lemma PageMask(v: bv32)
    ensures (v & 0x3FFF) as nat <= 0x3FFF
  {
  }

  /** The ESP32-S3 is such a chip: 512 entries, pages of 64 KiB, 14-bit page numbers. */
  lemma Esp32S3NeverWraps(g: Geometry)
    requires g.pageSize == 0x1_0000 && g.physicalMask == 0x3FFF
    ensures NoWrap(g)
  {
    forall v: bv32
      ensures !Wraps(g, v)
    {
      PageMask(v);
    }
  }

  /** The mappings are what the table says. */
  ghost predicate MapsFollow(g: Geometry, entry: seq<bv32>, drom: seq<Mapping>, irom: seq<Mapping>) {
    |entry| == |drom| == |irom| == g.count
    && forall i :: 0 <= i < g.count ==> drom[i] == DataMapping(g, entry[i]) && irom[i] == InsnMapping(g, entry[i])
  }

  lemma MapsStillFollow(g: Geometry, entry: seq<bv32>, drom: seq<Mapping>, irom: seq<Mapping>, index: nat, v: bv32)
    requires MapsFollow(g, entry, drom, irom) && index < g.count
    ensures MapsFollow(g, entry[index := v], drom[index := DataMapping(g, v)], irom[index := InsnMapping(g, v)])
  {
  }

  /** Both windows show the same physical page, and unless its offset wrapped it is the page the
      entry names. */
  lemma SamePhysicalPage(g: Geometry, entry: seq<bv32>, drom: seq<Mapping>, irom: seq<Mapping>, i: nat)
    requires MapsFollow(g, entry, drom, irom) && i < g.count
    ensures drom[i].Mapped? <==> irom[i].Mapped?
    ensures drom[i].Mapped? <==> Usable(g, entry[i])
    ensures drom[i].Mapped? ==> drom[i].physical == irom[i].physical
    ensures drom[i].Mapped? && !Wraps(g, entry[i]) ==> drom[i].physical == PageNumber(g, entry[i]) * g.pageSize
  {
    if !Wraps(g, entry[i]) {
      PhysicalOf(g, entry[i], PageNumber(g, entry[i]) * g.pageSize);
    }
  }

  ghost predicate SizesOk(g: Geometry, k: Contents) { |k.flash| == g.insnSize && |k.psram| == g.psramSize }

  function Programmed(k: Contents, offset: nat, data: seq<bv8>): Contents
    requires offset + |data| <= |k.flash|
  {
    k.(flash := k.flash[..offset] + data + k.flash[offset + |data|..])
  }

  /** Pages that nobody was told to drop show the bytes they showed before. */
  lemma UnnoticedUnchanged(g: Geometry, entry: seq<bv32>, drom: seq<Mapping>, irom: seq<Mapping>, k: Contents,
                           offset: nat, data: seq<bv8>, i: nat)
    requires GeometryOk(g) && MapsFollow(g, entry, drom, irom) && SizesOk(g, k) && i < g.count && irom[i].Mapped?
    requires offset + |data| <= |k.flash| && |data| > 0 && !Noticed(g, entry[i], offset, |data|) && !Wraps(g, entry[i])
    ensures BytesAt(Programmed(k, offset, data), irom[i], g.pageSize) == BytesAt(k, irom[i], g.pageSize)
  {
    var v := entry[i];
    if !IsPsram(g, v) {
      if Overlap(Physical(g, v), g.pageSize, offset, |data|) {
        ChangeNoticed(g, v, offset, |data|);
      } else {
        SameSlice(k.flash, Programmed(k, offset, data).flash, Physical(g, v), g.pageSize, offset, data);
      }
    }
  }

  /** A page that an engine keeps code of and that shows other bytes after the change, without
      the change being noticed for it. */
  ghost predicate Missed(g: Geometry, entry: seq<bv32>, irom: seq<Mapping>, k: Contents, c: Caches, a: Attached,
                         offset: nat, data: seq<bv8>, e: Engine, page: nat)
    requires g.pageSize > 0 && offset + |data| <= |k.flash| && |data| > 0
  {
    && IsAttached(a, e) && Keeps(c, e, page) && page < |irom| == |entry| && irom[page].Mapped?
    && !Noticed(g, entry[page], offset, |data|)
    && BytesAt(Programmed(k, offset, data), irom[page], g.pageSize) != BytesAt(k, irom[page], g.pageSize)
  }

  /** Only an entry whose page offset wrapped can be missed. */
  lemma OnlyWrappedMissed(g: Geometry, entry: seq<bv32>, drom: seq<Mapping>, irom: seq<Mapping>, k: Contents, c: Caches,
                          a: Attached, offset: nat, data: seq<bv8>, e: Engine, page: nat)
    requires GeometryOk(g) && MapsFollow(g, entry, drom, irom) && SizesOk(g, k) && offset + |data| <= |k.flash|
    requires |data| > 0
    requires Missed(g, entry, irom, k, c, a, offset, data, e, page)
    ensures Wraps(g, entry[page])
  {
    if !Wraps(g, entry[page]) {
      UnnoticedUnchanged(g, entry, drom, irom, k, offset, data, page);
    }
  }

  /** A reported flash change leaves every cache fresh if and only if it misses nothing. */
  lemma ProgramStaysFresh(g: Geometry, entry: seq<bv32>, drom: seq<Mapping>, irom: seq<Mapping>, k: Contents,
                          c: Caches, d: Caches, a: Attached, offset: nat, data: seq<bv8>)
    requires GeometryOk(g) && MapsFollow(g, entry, drom, irom) && SizesOk(g, k)
    requires offset + |data| <= |k.flash| && |data| > 0
    requires AllFresh(irom, k, g.pageSize, c, a) && AllWithin(d, c, a)
    requires forall i :: 0 <= i < |entry| && Noticed(g, entry[i], offset, |data|) ==> NobodyKeeps(d, a, i)
    requires forall i :: 0 <= i < |entry| && !Noticed(g, entry[i], offset, |data|) ==> Unmoved(c, d, a, i)
    ensures AllFresh(irom, Programmed(k, offset, data), g.pageSize, d, a)
            <==> forall e, page :: !Missed(g, entry, irom, k, c, a, offset, data, e, page)
  {
    var k' := Programmed(k, offset, data);
    if forall e, page :: !Missed(g, entry, irom, k, c, a, offset, data, e, page) {
      forall e, page, bytes | IsAttached(a, e) && Keeps(d, e, page) && PageFresh(irom, k, g.pageSize, page, bytes)
        ensures PageFresh(irom, k', g.pageSize, page, bytes)
      {
        WithinKeeps(d, c, e, page);
        assert !Missed(g, entry, irom, k, c, a, offset, data, e, page);
      }
      StaysFresh(irom, k, irom, k', g.pageSize, c, d, a);
    } else {
      var e, page :| Missed(g, entry, irom, k, c, a, offset, data, e, page);
      MissedIsStale(g, entry, irom, k, c, d, a, offset, data, e, page);
    }
  }

  lemma MissedIsStale(g: Geometry, entry: seq<bv32>, irom: seq<Mapping>, k: Contents, c: Caches, d: Caches, a: Attached,
                      offset: nat, data: seq<bv8>, e: Engine, page: nat)
    requires g.pageSize > 0 && offset + |data| <= |k.flash| && |data| > 0 && AllFresh(irom, k, g.pageSize, c, a)
    requires Missed(g, entry, irom, k, c, a, offset, data, e, page) && Unmoved(c, d, a, page)
    ensures !AllFresh(irom, Programmed(k, offset, data), g.pageSize, d, a)
  {
    assert EngineFresh(irom, k, g.pageSize, c, e) && Kept(d, e, page) == Kept(c, e, page);
    var was, kept := BytesAt(k, irom[page], g.pageSize), Kept(c, e, page);
    if kept.0.Some? {
      assert PageFresh(irom, k, g.pageSize, page, CacheIn(c.predecode, e.predecode)[page]);
      assert kept.0.value == was;
      assert !CacheFresh(irom, Programmed(k, offset, data), g.pageSize, CacheIn(d.predecode, e.predecode));
    } else {
      assert PageFresh(irom, k, g.pageSize, page, CacheIn(c.jit, e.jit)[page]);
      assert kept.1.value == was;
      assert !CacheFresh(irom, Programmed(k, offset, data), g.pageSize, CacheIn(d.jit, e.jit));
    }
    assert !EngineFresh(irom, Programmed(k, offset, data), g.pageSize, d, e);
  }

  /** An engine decodes or translates code of a page it can fetch from. */
  function Learned(c: Caches, e: Engine, page: nat, bytes: seq<bv8>, translated: bool): Caches {
    if translated then
      (if e.jit.Some? then c.(jit := c.jit[e.jit.value := CacheIn(c.jit, e.jit)[page := bytes]]) else c)
    else
      if e.predecode.None? then c
      else
        var known := CacheIn(c.predecode, e.predecode);
        c.(predecode := c.predecode[e.predecode.value := known[page := bytes]])
  }

  lemma LearningStaysFresh(irom: seq<Mapping>, k: Contents, n: nat, c: Caches, a: Attached, e: Engine, page: nat,
                           translated: bool)
    requires AllFresh(irom, k, n, c, a) && IsAttached(a, e) && page < |irom| && irom[page].Mapped?
    ensures AllFresh(irom, k, n, Learned(c, e, page, BytesAt(k, irom[page], n), translated), a)
  {
    assert EngineFresh(irom, k, n, c, e);
    var d := Learned(c, e, page, BytesAt(k, irom[page], n), translated);
    forall f | IsAttached(a, f)
      ensures EngineFresh(irom, k, n, d, f)
    {
      assert EngineFresh(irom, k, n, c, f);
    }
  }

  /** The table after one event: an aligned store within it changes one entry. */
  function EntryNext(g: Geometry, entry: seq<bv32>, e: Event): (r: seq<bv32>)
    requires |entry| == g.count
    ensures |r| == g.count
  {
    if e.TableStore? && e.addr < 0x1_0000_0000 then
      var offset := (e.addr + 0x1_0000_0000 - g.tableBase) % 0x1_0000_0000;
      if offset % 4 == 0 && offset / 4 < g.count
      then entry[offset / 4 := e.value & (g.physicalMask | g.invalidMask | g.targetMask)] else entry
    else entry
  }

  function EntriesAfter(g: Geometry, entry: seq<bv32>, events: seq<Event>): (r: seq<bv32>)
    requires |entry| == g.count
    ensures |r| == g.count
  {
    if events == [] then entry
    else EntryNext(g, EntriesAfter(g, entry, events[..|events| - 1]), events[|events| - 1])
  }

  /** The flash after one event. */
  function FlashNext(flash: seq<bv8>, e: Event): (r: seq<bv8>)
    ensures |r| == |flash|
  {
    if e.FlashWrite? && e.offset + |e.data| <= |flash|
    then flash[..e.offset] + e.data + flash[e.offset + |e.data|..] else flash
  }

  function FlashAfter(flash: seq<bv8>, events: seq<Event>): (r: seq<bv8>)
    ensures |r| == |flash|
  {
    if events == [] then flash else FlashNext(FlashAfter(flash, events[..|events| - 1]), events[|events| - 1])
  }

  class Mmu {
    const g: Geometry
    var entry: seq<bv32>
    var drom: seq<Mapping>
    var irom: seq<Mapping>
    var contents: Contents
    var attached: Attached
    var caches: Caches

    /** Mappings follow the table. */
    ghost predicate Valid()
      reads this
    {
      GeometryOk(g) && SizesOk(g, contents) && MapsFollow(g, entry, drom, irom)
    }

    /** No attached engine keeps code of a page whose mapping or bytes have changed since. */
    ghost predicate Coherent()
      reads this
    {
      AllFresh(irom, contents, g.pageSize, caches, attached)
    }

    constructor (geometry: Geometry, k: Contents)
      requires GeometryOk(geometry) && SizesOk(geometry, k)
      ensures Valid() && Coherent() && g == geometry && contents == k && attached == Attached(None, None)
      ensures caches == Caches(map[], map[])
      ensures forall i :: 0 <= i < g.count ==> entry[i] == g.invalidEntry && irom[i] == Unmapped
    {
      g, contents := geometry, k;
      entry := seq(geometry.count, _ => geometry.invalidEntry);
      drom := seq(geometry.count, _ => Unmapped);
      irom := seq(geometry.count, _ => Unmapped);
      attached, caches := Attached(None, None), Caches(map[], map[]);
    }

    /** Attach engines; all is coherent if they have no stale code of their own. */
    method Attach(a: Attached)
      requires Valid()
      modifies this`attached
      ensures Valid() && attached == a
      ensures Coherent() <==> AllFresh(irom, contents, g.pageSize, caches, a)
    {
      attached := a;
    }

    /** Bring a page pair in line with its entry. Mapping fails, and both windows go, if the
        host has no memory for one of the backings. */
    method Apply(index: nat, value: bv32)
      requires Valid() && index < g.count
      modifies this`entry, this`drom, this`irom, this`caches
      ensures Valid() && (old(Coherent()) ==> Coherent())
      ensures entry == old(entry)[index := value] && NobodyKeeps(caches, attached, index)
      ensures drom == old(drom)[index := DataMapping(g, value)] && irom == old(irom)[index := InsnMapping(g, value)]
      ensures forall i :: 0 <= i < g.count && i != index ==> Unmoved(old(caches), caches, attached, i)
    {
      OthersKept(caches, attached, index);
      MapsStillFollow(g, entry, drom, irom, index, value);
      if Coherent() {
        RemapStaysFresh(irom, contents, g.pageSize, caches, attached, index, InsnMapping(g, value));
      }
      InvalidationStep(caches, caches, attached, index);
      entry := entry[index := value];
      var mapped := InRange(g, value);
      if mapped && DataBacking(g, value) in g.hosted && InsnBacking(g, value) in g.hosted {
        drom := drom[index := Mapped(DataBacking(g, value), Physical(g, value))];
        irom := irom[index := Mapped(InsnBacking(g, value), Physical(g, value))];
      } else {
        drom := drom[index := Unmapped];
        irom := irom[index := Unmapped];
      }
      caches := Invalidated(caches, attached, index);
    }

    /** A guest store to the table. Misaligned or out-of-range stores are ignored, and so
        are stores that change nothing. */
    method Write(addr: nat, value: bv32)
      requires Valid() && addr < WORD
      modifies this`entry, this`drom, this`irom, this`caches
      ensures Valid() && (old(Coherent()) ==> Coherent())
      ensures var offset := (addr + WORD - g.tableBase) % WORD;
              entry == if offset % 4 == 0 && offset / 4 < g.count
                       then old(entry)[offset / 4 := value & (g.physicalMask | g.invalidMask | g.targetMask)]
                       else old(entry)
      ensures entry == old(entry) ==> caches == old(caches)
      ensures forall i :: 0 <= i < g.count ==>
        if entry[i] == old(entry)[i] then Unmoved(old(caches), caches, attached, i)
        else NobodyKeeps(caches, attached, i)
    {
      var offset := (addr + WORD - g.tableBase) % WORD;
      if offset % 4 != 0 || offset / 4 >= g.count { return; }
      Update(offset / 4, value & MaskOf(g));
    }

    /** A new value for an entry, applied if it is one. */
    method Update(index: nat, masked: bv32)
      requires Valid() && index < g.count
      modifies this`entry, this`drom, this`irom, this`caches
      ensures Valid() && (old(Coherent()) ==> Coherent()) && entry == old(entry)[index := masked]
      ensures masked == old(entry)[index] ==> caches == old(caches)
      ensures forall i :: 0 <= i < g.count ==>
        if entry[i] == old(entry)[i] then Unmoved(old(caches), caches, attached, i)
        else NobodyKeeps(caches, attached, i)
    {
      if entry[index] == masked {
        assert entry == entry[index := masked];
        return;
      }
      Apply(index, masked);
    }

    /** An engine takes code of a page into its predecode table or its translator. */
    method Learn(e: Engine, page: nat, translated: bool)
      requires Valid() && IsAttached(attached, e) && page < g.count && irom[page].Mapped?
      modifies this`caches
      ensures Valid() && (old(Coherent()) ==> Coherent())
      ensures caches == Learned(old(caches), e, page, BytesAt(contents, irom[page], g.pageSize), translated)
      ensures var start := irom[page].physical;
              var memory := if irom[page].backing.Psram? then contents.psram else contents.flash;
              && start + g.pageSize <= |memory|
              && var bytes, id := memory[start..start + g.pageSize], if translated then e.jit else e.predecode;
                 var cache := CacheIn(if translated then caches.jit else caches.predecode, id);
                 id.Some? ==> page in cache && cache[page] == bytes
    {
      if Coherent() {
        LearningStaysFresh(irom, contents, g.pageSize, caches, attached, e, page, translated);
      }
      caches := Learned(caches, e, page, BytesAt(contents, irom[page], g.pageSize), translated);
    }

    /** The change would reach code that an engine keeps without being noticed. */
    ghost predicate Misses(offset: nat, data: seq<bv8>)
      requires Valid() && offset + |data| <= |contents.flash|
      reads this
    {
      |data| > 0 && exists e, page :: Missed(g, entry, irom, contents, caches, attached, offset, data, e, page)
    }

    /** Flash is programmed or erased, and the change is reported. */
    method Program(offset: nat, data: seq<bv8>)
      requires Valid() && offset + |data| <= |contents.flash|
      modifies this`contents, this`caches
      ensures Valid() && contents == Programmed(old(contents), offset, data)
      ensures old(Coherent()) ==> (Coherent() <==> !old(Misses(offset, data)))
      ensures NoWrap(g) ==> !old(Misses(offset, data))
      ensures contents.psram == old(contents.psram) && |contents.flash| == |old(contents.flash)|
      ensures forall x :: 0 <= x < |contents.flash| ==>
        contents.flash[x] == if offset <= x < offset + |data| then data[x - offset] else old(contents.flash)[x]
      ensures forall i :: 0 <= i < g.count ==>
        if |data| > 0 && Noticed(g, entry[i], offset, |data|) then NobodyKeeps(caches, attached, i)
        else Unmoved(old(caches), caches, attached, i)
    {
      if |data| == 0 {
        assert Programmed(contents, offset, data).flash == contents.flash;
        return;
      }
      var d := ChangeReported(g, entry, caches, attached, offset, |data|);
      if Coherent() {
        ProgramStaysFresh(g, entry, drom, irom, contents, caches, d, attached, offset, data);
      }
      forall e, page | Missed(g, entry, irom, contents, caches, attached, offset, data, e, page)
        ensures !NoWrap(g)
      {
        OnlyWrappedMissed(g, entry, drom, irom, contents, caches, attached, offset, data, e, page);
      }
      contents, caches := Programmed(contents, offset, data), d;
    }

    /** Any sequence of table stores, flash changes and code fetches leaves the mappings as the
        table says, and all caches coherent on a chip whose page offsets do not wrap. */
    method Run(events: seq<Event>)
      requires Valid()
      modifies this`entry, this`drom, this`irom, this`contents, this`caches
      ensures Valid() && attached == old(attached)
      ensures old(Coherent()) && NoWrap(g) ==> Coherent()
      ensures entry == EntriesAfter(g, old(entry), events) && contents.psram == old(contents.psram)
      ensures contents.flash == FlashAfter(old(contents.flash), events)
      ensures events != [] ==> Learnt(events[|events| - 1])
    {
      assert events[..0] == [];
      for i := 0 to |events|
        invariant Valid() && attached == old(attached)
        invariant old(Coherent()) && NoWrap(g) ==> Coherent()
        invariant entry == EntriesAfter(g, old(entry), events[..i]) && contents.psram == old(contents.psram)
        invariant contents.flash == FlashAfter(old(contents.flash), events[..i])
        invariant i > 0 ==> Learnt(events[i - 1])
      {
        assert events[..i + 1][..i] == events[..i];
        Step(events[i]);
      }
      assert events[..|events|] == events;
    }

    /** One event. */
    method Step(event: Event)
      requires Valid()
      modifies this`entry, this`drom, this`irom, this`contents, this`caches
      ensures Valid() && attached == old(attached) && contents.psram == old(contents.psram)
      ensures old(Coherent()) && NoWrap(g) ==> Coherent()
      ensures entry == EntryNext(g, old(entry), event) && contents.flash == FlashNext(old(contents.flash), event)
      ensures Learnt(event)
    {
      match event
      case TableStore(addr, value) =>
        if addr < WORD {
          Write(addr, value);
        }
      case FlashWrite(offset, data) =>
        if offset + |data| <= |contents.flash| {
          Program(offset, data);
        }
      case CodeFetch(e, page, translated) =>
        if IsAttached(attached, e) && page < g.count && irom[page].Mapped? {
          Learn(e, page, translated);
        }
    }

    /** After a fetch from a mapped page by an attached engine its table, or its translator, has code
        of the page. */
    ghost predicate Learnt(event: Event)
      requires Valid()
      reads this
    {
      event.CodeFetch? && IsAttached(attached, event.e) && event.page < g.count && irom[event.page].Mapped? ==>
        if event.translated then event.e.jit.Some? ==> event.page in CacheIn(caches.jit, event.e.jit)
        else event.e.predecode.Some? ==> event.page in CacheIn(caches.predecode, event.e.predecode)
    }
  }

  datatype Event = TableStore(addr: nat, value: bv32) | FlashWrite(offset: nat, data: seq<bv8>)
                 | CodeFetch(e: Engine, page: nat, translated: bool)

  // ----- a wrap -----

  /** A geometry, of no real chip, with one page of 4096 bytes and 21-bit page numbers. */
  const WRAPPING: Geometry :=
    Geometry(4096, 1, 0x600C_5000, 0x001F_FFFF, 0x8000_0000, 0, 0x8000_0000, 4096, 4096, 0,
             {FlashData, FlashInsn, Psram})

  lemma WrappingOk()
    ensures GeometryOk(WRAPPING)
  {
    assert PowerOfTwo(4096);
  }

  lemma WrappingEntry(v: bv32)
    requires v == 0x0010_0000
    ensures v & MaskOf(WRAPPING) == v && Usable(WRAPPING, v) && !IsPsram(WRAPPING, v)
    ensures Physical(WRAPPING, v) == 0 && PageNumber(WRAPPING, v) == 0x0010_0000
  {
    assert PageNumber(WRAPPING, v) == 0x0010_0000;
  }

  /** There, a page mapped under a number that wraps to page 0 is not found when page 0 is
      programmed, and its code goes stale. */
  method WrappedPageGoesStale(flash: seq<bv8>, b: bv8) returns (m: Mmu)
    requires |flash| == 4096 && flash[0] != b
    ensures fresh(m) && m.Valid() && !m.Coherent()
  {
    WrappingOk();
    m := new Mmu(WRAPPING, Contents(flash, []));
    var e := Engine(Some(0), None);
    m.Attach(Attached(Some(e), None));
    WrappingEntry(0x0010_0000);
    m.Write(WRAPPING.tableBase, 0x0010_0000);
    m.Learn(e, 0, false);
    assert Missed(WRAPPING, m.entry, m.irom, m.contents, m.caches, m.attached, 0, [b], e, 0) by {
      assert Programmed(m.contents, 0, [b]).flash[0] == b;
      assert BytesAt(Programmed(m.contents, 0, [b]), m.irom[0], 4096)[0] == b;
    }
    m.Program(0, [b]);
  }
}
