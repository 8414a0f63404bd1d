/** Page tables of the bootloader (x86-64, 4 or 5 levels).

    Tables live in physical memory, a map from table address to its 512 entries,
    and are changed in place by `Vmm.MapPage` and `Vmm.GetNextLevel`. The meaning of a
    table tree is the page walk of section 4.5 of the Intel SDM, volume 3A: `Walk`
    gives each virtual address its physical address, write and no-execute rights. */
module PageTables {
  import opened Basics
  import opened Arith

  /** A page-table entry as its bit fields: bits 0, 1, 2, 7, 63 and the address field. */
  datatype Pte = Pte(valid: bool, write: bool, user: bool, large: bool, nx: bool, addr: nat)

  predicate IsTable(e: Pte) { e.valid && !e.large }

  predicate IsLarge(e: Pte) { e.valid && e.large }

  /** The entry that points at the table `t`: valid, writable, user, executable. */
  function TableEntry(t: nat): Pte { Pte(true, true, true, false, false, t) }

  const NotPresent := Pte(false, false, false, false, false, 0)

  const ENTRIES := 512

  /** What a virtual address means: where it goes and with which rights. */
  datatype Mapping = Mapping(phys: nat, write: bool, nx: bool)

  /** Bytes covered by one entry of a table at level `k` (level 0 holds 4 KiB pages). */
  function PageBytes(k: nat): (r: nat)
    ensures r > 0
  {
    if k == 0 then 0x1000 else 512 * PageBytes(k - 1)
  }

  /** The number of the level-`k` region that holds address `a`. */
  function Region(a: nat, k: nat): nat
  {
    if k == 0 then a / 0x1000 else Region(a, k - 1) / 512
  }

  /** The nine address bits that select the entry of a level-`k` table. */
  function Index(a: nat, k: nat): (i: nat)
    ensures i < ENTRIES
  {
    Region(a, k) % 512
  }

  /** Address bits above the top level do not take part in the walk. */
  function Low(a: nat, levels: nat): nat
  {
    a % PageBytes(levels)
  }

  lemma {:induction false} RegionIsQuotient(a: nat, k: nat)
    ensures Region(a, k) == a / PageBytes(k)
  {
    if k == 0 {
    } else {
      RegionIsQuotient(a, k - 1);
      DivDiv(a, 512, PageBytes(k - 1));
    }
  }

  lemma RegionStep(a: nat, k: nat)
    ensures Region(a, k + 1) == Region(a, k) / 512
    ensures Region(a, k) == Region(a, k + 1) * 512 + Index(a, k)
  {
  }

  /** Two addresses share a level-`k` region exactly when one lies in the page of the other. */
  lemma SameRegion(a: nat, lo: nat, k: nat)
    requires lo % PageBytes(k) == 0
    ensures Region(a, k) == Region(lo, k) <==> lo <= a < lo + PageBytes(k)
    ensures lo <= a < lo + PageBytes(k) ==> a % PageBytes(k) == a - lo
  {
    RegionIsQuotient(a, k);
    RegionIsQuotient(lo, k);
    SameQuotient(a, lo, PageBytes(k));
  }

  lemma {:induction false} RegionCoarser(a: nat, b: nat, j: nat, k: nat)
    requires j <= k && Region(a, j) == Region(b, j)
    ensures Region(a, k) == Region(b, k)
    decreases k - j
  {
    if j >= k {
    } else {
      RegionCoarser(a, b, j + 1, k);
    }
  }

  /** How many level-`j` pages make up one level-`k` page. */
  function Ratio(j: nat, k: nat): (n: nat)
    requires j <= k
    ensures n > 0
    decreases k - j
  {
    if j == k then 1 else 512 * Ratio(j, k - 1)
  }

  lemma {:induction false} SizesNest(j: nat, k: nat)
    requires j <= k
    ensures PageBytes(k) == Ratio(j, k) * PageBytes(j)
    decreases k - j
  {
    if j >= k {
    } else {
      SizesNest(j, k - 1);
      Associate(512, Ratio(j, k - 1), PageBytes(j));
    }
  }

  /** Adding whole address spaces changes no index. */
  lemma IndexOfLow(a: nat, levels: nat, k: nat)
    requires k < levels
    ensures Index(Low(a, levels), k) == Index(a, k)
  {
    var c, lo := DivMod(a, PageBytes(levels));
    SizesNest(k, levels);
    Associate(c, Ratio(k, levels), PageBytes(k));
    DivAdd(lo, c * Ratio(k, levels), PageBytes(k));
    RegionIsQuotient(a, k);
    RegionIsQuotient(lo, k);
    var n := Ratio(k, levels - 1);
    assert c * (512 * n) == (c * n) * 512;
    DivAdd(Region(lo, k), c * n, 512);
  }

  lemma LowAligned(a: nat, levels: nat, k: nat)
    requires k <= levels && a % PageBytes(k) == 0
    ensures Low(a, levels) % PageBytes(k) == 0
    ensures Low(a, levels) + PageBytes(k) <= PageBytes(levels)
  {
    SizesNest(k, levels);
    RemainderAligned(a, Ratio(k, levels), PageBytes(k));
  }

  lemma NestedFits(j: nat, k: nat, i: nat)
    requires j <= k && i % PageBytes(j) == 0 && i < PageBytes(k)
    ensures i + PageBytes(j) <= PageBytes(k)
    ensures (i + PageBytes(j)) % PageBytes(j) == 0
  {
    var q, r := DivMod(i, PageBytes(j));
    SizesNest(j, k);
    MultipleFits(q, Ratio(j, k), PageBytes(j));
    DivAdd(i, 1, PageBytes(j));
  }

  lemma AlignedSum(k: nat, a: nat, b: nat)
    requires a % PageBytes(k) == 0 && b % PageBytes(k) == 0
    ensures (a + b) % PageBytes(k) == 0
  {
    var q, r := DivMod(b, PageBytes(k));
    DivAdd(a, q, PageBytes(k));
  }

  lemma FinerAlignment(j: nat, k: nat, a: nat)
    requires j <= k && a % PageBytes(k) == 0
    ensures a % PageBytes(j) == 0
  {
    var q, r := DivMod(a, PageBytes(k));
    SizesNest(j, k);
    Associate(q, Ratio(j, k), PageBytes(j));
    DivUnique(a, q * Ratio(j, k), 0, PageBytes(j));
  }

  lemma LowOfOffset(base: nat, levels: nat, k: nat, i: nat)
    requires k <= levels && base % PageBytes(k) == 0 && i < PageBytes(k)
    ensures Low(base + i, levels) == Low(base, levels) + i
  {
    LowAligned(base, levels, k);
    RemainderOffset(base, PageBytes(levels), i);
  }

  type Memory = map<nat, seq<Pte>>

  /** Where a table sits in the tree: its level and the region number it translates. */
  datatype Place = Place(level: nat, region: nat)

  ghost predicate WellFormedEntry(places: map<nat, Place>, p: Place, i: nat, e: Pte)
  {
    p.level > 0 ==>
      && (IsTable(e) ==>
           && e.addr in places
           && places[e.addr] == Place(p.level - 1, p.region * 512 + i)
           && e == TableEntry(e.addr))
      && (IsLarge(e) ==> p.level <= 2 && e.addr % PageBytes(p.level) == 0)
  }

  /** Every table has one place, so no two virtual regions share a table; entries above
      level 0 are absent, links to the table placed there, or aligned large pages. */
  ghost predicate WellFormed(m: Memory, places: map<nat, Place>, levels: nat, root: nat)
  {
    && (levels == 4 || levels == 5)
    && m.Keys == places.Keys
    && root in m && places[root] == Place(levels - 1, 0)
    && (forall t :: t in m ==> |m[t]| == ENTRIES && places[t].level < levels)
    && (forall t, i :: t in m && 0 <= i < ENTRIES ==> WellFormedEntry(places, places[t], i, m[t][i]))
  }

  ghost predicate At(places: map<nat, Place>, t: nat, k: nat, a: nat)
    requires k < 5
  {
    t in places && places[t] == Place(k, Region(a, k + 1))
  }

  function EntryOf(m: Memory, t: nat, k: nat, a: nat): Pte
    requires k <= 5
  {
    if t in m && |m[t]| == ENTRIES then m[t][Index(a, k)] else NotPresent
  }

  /** The hardware walk from table `t` at level `k`: rights are combined along the way. */
  function Walk(m: Memory, t: nat, k: nat, a: nat): Option<Mapping>
    requires k < 5
    decreases k
  {
    var e := EntryOf(m, t, k, a);
    if !e.valid then None
    else if k == 0 || e.large then Some(Mapping(e.addr + a % PageBytes(k), e.write, e.nx))
    else
      match Walk(m, e.addr, k - 1, a)
      case None => None
      case Some(x) => Some(Mapping(x.phys, e.write && x.write, e.nx || x.nx))
  }

  /** The table that the walk for `a` from `t` at level `j` reaches at level `k`. */
  function Descend(m: Memory, t: nat, j: nat, a: nat, k: nat): Option<nat>
    requires k <= j < 5
    decreases j
  {
    if j == k then Some(t)
    else
      var e := EntryOf(m, t, j, a);
      if IsTable(e) then Descend(m, e.addr, j - 1, a, k) else None
  }

  lemma ChildPlace(m: Memory, places: map<nat, Place>, levels: nat, root: nat, t: nat, k: nat, a: nat)
    requires WellFormed(m, places, levels, root) && 0 < k < levels && At(places, t, k, a)
    ensures var e := EntryOf(m, t, k, a);
            && (IsTable(e) ==> At(places, e.addr, k - 1, a) && e == TableEntry(e.addr))
            && (IsLarge(e) ==> k <= 2 && e.addr % PageBytes(k) == 0)
  {
    RegionStep(a, k);
    assert WellFormedEntry(places, places[t], Index(a, k), m[t][Index(a, k)]);
  }

  /** Below a table link the walk goes on in the linked table with unchanged rights. */
  lemma {:induction false} WalkFromDescent(m: Memory, places: map<nat, Place>, levels: nat, root: nat,
                         t: nat, j: nat, a: nat, k: nat)
    requires WellFormed(m, places, levels, root) && k <= j < levels && At(places, t, j, a)
    requires Descend(m, t, j, a, k).Some?
    ensures var d := Descend(m, t, j, a, k).value;
            && At(places, d, k, a)
            && Walk(m, t, j, a) == Walk(m, d, k, a)
    decreases j
  {
    if j > k {
      ChildPlace(m, places, levels, root, t, j, a);
      var e := EntryOf(m, t, j, a);
      WalkFromDescent(m, places, levels, root, e.addr, j - 1, a, k);
    }
  }

  /** A new table that nothing refers to changes no walk. */
  lemma {:induction false} WalkIgnoresNewTable(m: Memory, places: map<nat, Place>, levels: nat, root: nat,
                             t: nat, j: nat, a: nat, f: nat, rows: seq<Pte>)
    requires WellFormed(m, places, levels, root) && j < levels && At(places, t, j, a) && f !in m
    ensures Walk(m[f := rows], t, j, a) == Walk(m, t, j, a)
    decreases j
  {
    if j > 0 && IsTable(EntryOf(m, t, j, a)) {
      ChildPlace(m, places, levels, root, t, j, a);
      WalkIgnoresNewTable(m, places, levels, root, EntryOf(m, t, j, a).addr, j - 1, a, f, rows);
    }
  }

  lemma OtherEntryUnchanged(m: Memory, places: map<nat, Place>, u: nat, j: nat, a: nat, t: nat, i: nat, e: Pte)
    requires j < 5 && At(places, u, j, a) && t in m && t in places && |m[t]| == ENTRIES && i < ENTRIES
    requires places[t].level < 5 && Region(a, places[t].level) != places[t].region * 512 + i
    ensures EntryOf(m[t := m[t][i := e]], u, j, a) == EntryOf(m, u, j, a)
  {
    RegionStep(a, j);
  }

  /** Writing entry `i` of table `t` touches only the addresses of that one region. */
  lemma {:induction false} WalkIgnoresOtherEntry(m: Memory, places: map<nat, Place>, levels: nat, root: nat,
                               u: nat, j: nat, a: nat, t: nat, i: nat, e: Pte)
    requires WellFormed(m, places, levels, root) && j < levels && At(places, u, j, a)
    requires t in m && i < ENTRIES
    requires Region(a, places[t].level) != places[t].region * 512 + i
    ensures Walk(m[t := m[t][i := e]], u, j, a) == Walk(m, u, j, a)
    decreases j
  {
    OtherEntryUnchanged(m, places, u, j, a, t, i, e);
    if j > 0 && IsTable(EntryOf(m, u, j, a)) {
      ChildPlace(m, places, levels, root, u, j, a);
      WalkIgnoresOtherEntry(m, places, levels, root, EntryOf(m, u, j, a).addr, j - 1, a, t, i, e);
    }
  }

  /** Table links above level `s` are never undone. */
  ghost predicate LinksKept(m0: Memory, m1: Memory, places: map<nat, Place>, s: nat)
  {
    forall t, i ::
      t in m0 && t in places && places[t].level > s && |m0[t]| == ENTRIES && 0 <= i < ENTRIES && IsTable(m0[t][i])
      ==> t in m1 && |m1[t]| == ENTRIES && m1[t][i] == m0[t][i]
  }

  lemma {:induction false} DescentKept(m0: Memory, m1: Memory, places: map<nat, Place>, levels: nat, root: nat,
                     t: nat, j: nat, a: nat, k: nat, s: nat)
    requires WellFormed(m0, places, levels, root) && s <= k <= j < levels && At(places, t, j, a)
    requires LinksKept(m0, m1, places, s) && Descend(m0, t, j, a, k).Some?
    ensures Descend(m1, t, j, a, k) == Descend(m0, t, j, a, k)
    decreases j
  {
    if j > k {
      ChildPlace(m0, places, levels, root, t, j, a);
      DescentKept(m0, m1, places, levels, root, EntryOf(m0, t, j, a).addr, j - 1, a, k, s);
    }
  }

  /** Addresses of one region share the way down to that region. */
  lemma {:induction false} DescentOfRegion(m: Memory, t: nat, j: nat, a: nat, b: nat, k: nat)
    requires k <= j < 5 && Region(a, k + 1) == Region(b, k + 1)
    ensures Descend(m, t, j, a, k) == Descend(m, t, j, b, k)
    decreases j
  {
    if j > k {
      RegionCoarser(a, b, k + 1, j);
      if IsTable(EntryOf(m, t, j, a)) {
        DescentOfRegion(m, EntryOf(m, t, j, a).addr, j - 1, a, b, k);
      }
    }
  }

  /** What the whole tree says about an address below the top of the address space. */
  function View(m: Memory, root: nat, levels: nat, a: nat): Option<Mapping>
    requires 0 < levels <= 5
  {
    Walk(m, root, levels - 1, a)
  }

  /** The rule of one page: addresses [lo, lo + n) go to [phys, phys + n), the others keep their meaning. */
  ghost predicate MapsRange(m0: Memory, m1: Memory, root: nat, levels: nat,
                            lo: nat, n: nat, phys: nat, write: bool, nx: bool)
    requires 0 < levels <= 5
  {
    forall a: nat :: a < PageBytes(levels) ==>
      View(m1, root, levels, a) ==
        if lo <= a < lo + n then Some(Mapping(phys + (a - lo), write, nx)) else View(m0, root, levels, a)
  }

  ghost predicate SameView(m0: Memory, m1: Memory, root: nat, levels: nat)
    requires 0 < levels <= 5
  {
    forall a: nat :: a < PageBytes(levels) ==> View(m1, root, levels, a) == View(m0, root, levels, a)
  }

  /** The addresses [lo, lo + n) lose their mapping, the others keep theirs. */
  ghost predicate UnmapsRange(m0: Memory, m1: Memory, root: nat, levels: nat, lo: nat, n: nat)
    requires 0 < levels <= 5
  {
    forall a: nat :: a < PageBytes(levels) ==>
      View(m1, root, levels, a) == if lo <= a < lo + n then None else View(m0, root, levels, a)
  }

  lemma RootAt(m: Memory, places: map<nat, Place>, levels: nat, root: nat, a: nat)
    requires WellFormed(m, places, levels, root) && a < PageBytes(levels)
    ensures At(places, root, levels - 1, a)
  {
    RegionIsQuotient(a, levels);
    DivUnique(a, 0, a, PageBytes(levels));
  }

  function Leaf(k: nat, phys: nat, write: bool, nx: bool): Pte
  {
    Pte(true, write, false, k > 0, nx, phys)
  }

  function SetEntry(m: Memory, t: nat, i: nat, e: Pte): Memory
    requires t in m && i < |m[t]|
  {
    m[t := m[t][i := e]]
  }

  /** Writing an entry that keeps every link elsewhere keeps the tree well formed. */
  lemma SetEntryWellFormed(m: Memory, places: map<nat, Place>, levels: nat, root: nat, t: nat, i: nat, e: Pte)
    requires WellFormed(m, places, levels, root) && t in m && i < ENTRIES
    requires WellFormedEntry(places, places[t], i, e)
    ensures WellFormed(SetEntry(m, t, i, e), places, levels, root)
  {
    var m' := SetEntry(m, t, i, e);
    forall u, j | u in m' && 0 <= j < ENTRIES ensures WellFormedEntry(places, places[u], j, m'[u][j]) {
      assert WellFormedEntry(places, places[u], j, m[u][j]);
    }
  }

  /** The walk inside the region whose entry was just written. */
  lemma WalkThroughNewEntry(m: Memory, places: map<nat, Place>, levels: nat, root: nat, t: nat, k: nat, lo: nat, e: Pte, a: nat)
    requires WellFormed(m, places, levels, root) && k < levels && lo < PageBytes(levels) && a < PageBytes(levels)
    requires Descend(m, root, levels - 1, lo, k) == Some(t) && t in m && |m[t]| == ENTRIES
    requires WellFormed(SetEntry(m, t, Index(lo, k), e), places, levels, root)
    requires LinksKept(m, SetEntry(m, t, Index(lo, k), e), places, k)
    requires Region(a, k) == Region(lo, k)
    ensures Descend(SetEntry(m, t, Index(lo, k), e), root, levels - 1, a, k) == Some(t)
    ensures View(SetEntry(m, t, Index(lo, k), e), root, levels, a) == Walk(SetEntry(m, t, Index(lo, k), e), t, k, a)
    ensures EntryOf(SetEntry(m, t, Index(lo, k), e), t, k, a) == e
  {
    var m' := SetEntry(m, t, Index(lo, k), e);
    RootAt(m, places, levels, root, lo);
    RootAt(m, places, levels, root, a);
    DescentKept(m, m', places, levels, root, root, levels - 1, lo, k, k);
    RegionCoarser(a, lo, k, k + 1);
    DescentOfRegion(m', root, levels - 1, a, lo, k);
    WalkFromDescent(m', places, levels, root, root, levels - 1, a, k);
  }

  lemma PlaceOfDescent(m: Memory, places: map<nat, Place>, levels: nat, root: nat, t: nat, k: nat, lo: nat)
    requires WellFormed(m, places, levels, root) && k < levels && lo < PageBytes(levels)
    requires Descend(m, root, levels - 1, lo, k) == Some(t)
    ensures t in m && |m[t]| == ENTRIES && At(places, t, k, lo)
    ensures places[t].region * 512 + Index(lo, k) == Region(lo, k)
    ensures View(m, root, levels, lo) == Walk(m, t, k, lo)
  {
    RootAt(m, places, levels, root, lo);
    WalkFromDescent(m, places, levels, root, root, levels - 1, lo, k);
    RegionStep(lo, k);
  }

  lemma SetEntryKeepsLinks(m: Memory, places: map<nat, Place>, t: nat, i: nat, e: Pte, s: nat)
    requires t in m && t in places && |m[t]| == ENTRIES && i < ENTRIES
    requires places[t].level <= s || !IsTable(m[t][i])
    ensures LinksKept(m, SetEntry(m, t, i, e), places, s)
  {
  }

  lemma InsideLeaf(m: Memory, places: map<nat, Place>, levels: nat, root: nat, t: nat, k: nat, lo: nat,
                   phys: nat, write: bool, nx: bool, a: nat)
    requires WellFormed(m, places, levels, root) && k <= 2 && lo < PageBytes(levels) && a < PageBytes(levels)
    requires Descend(m, root, levels - 1, lo, k) == Some(t) && t in m && |m[t]| == ENTRIES && At(places, t, k, lo)
    requires WellFormed(SetEntry(m, t, Index(lo, k), Leaf(k, phys, write, nx)), places, levels, root)
    requires Region(a, k) == Region(lo, k)
    ensures View(SetEntry(m, t, Index(lo, k), Leaf(k, phys, write, nx)), root, levels, a)
         == Some(Mapping(phys + a % PageBytes(k), write, nx))
  {
    var e := Leaf(k, phys, write, nx);
    SetEntryKeepsLinks(m, places, t, Index(lo, k), e, k);
    WalkThroughNewEntry(m, places, levels, root, t, k, lo, e, a);
  }

  lemma OutsideEntry(m: Memory, places: map<nat, Place>, levels: nat, root: nat, t: nat, k: nat, lo: nat, e: Pte, a: nat)
    requires WellFormed(m, places, levels, root) && k < levels && a < PageBytes(levels)
    requires t in m && At(places, t, k, lo)
    requires places[t].region * 512 + Index(lo, k) == Region(lo, k)
    requires Region(a, k) != Region(lo, k)
    ensures View(SetEntry(m, t, Index(lo, k), e), root, levels, a) == View(m, root, levels, a)
  {
    RootAt(m, places, levels, root, a);
    WalkIgnoresOtherEntry(m, places, levels, root, root, levels - 1, a, t, Index(lo, k), e);
  }

  lemma InstallLeafAt(m: Memory, places: map<nat, Place>, levels: nat, root: nat, t: nat, k: nat, lo: nat,
                      phys: nat, write: bool, nx: bool, a: nat)
    requires WellFormed(m, places, levels, root) && k <= 2 && lo < PageBytes(levels) && a < PageBytes(levels)
    requires lo % PageBytes(k) == 0
    requires Descend(m, root, levels - 1, lo, k) == Some(t) && t in m && |m[t]| == ENTRIES && At(places, t, k, lo)
    requires places[t].region * 512 + Index(lo, k) == Region(lo, k)
    requires WellFormed(SetEntry(m, t, Index(lo, k), Leaf(k, phys, write, nx)), places, levels, root)
    ensures View(SetEntry(m, t, Index(lo, k), Leaf(k, phys, write, nx)), root, levels, a) ==
        if lo <= a < lo + PageBytes(k) then Some(Mapping(phys + (a - lo), write, nx)) else View(m, root, levels, a)
  {
    SameRegion(a, lo, k);
    if lo <= a < lo + PageBytes(k) {
      InsideLeaf(m, places, levels, root, t, k, lo, phys, write, nx, a);
    } else {
      OutsideEntry(m, places, levels, root, t, k, lo, Leaf(k, phys, write, nx), a);
    }
  }

  /** Writing a page into the table reached at its level maps exactly that page. */
  lemma InstallLeaf(m: Memory, places: map<nat, Place>, levels: nat, root: nat, t: nat, k: nat, lo: nat,
                    phys: nat, write: bool, nx: bool)
    requires WellFormed(m, places, levels, root) && k <= 2 && lo < PageBytes(levels)
    requires lo % PageBytes(k) == 0 && phys % PageBytes(k) == 0
    requires Descend(m, root, levels - 1, lo, k) == Some(t)
    ensures t in m && |m[t]| == ENTRIES
    ensures var m' := SetEntry(m, t, Index(lo, k), Leaf(k, phys, write, nx));
            && WellFormed(m', places, levels, root)
            && LinksKept(m, m', places, k)
            && MapsRange(m, m', root, levels, lo, PageBytes(k), phys, write, nx)
  {
    PlaceOfDescent(m, places, levels, root, t, k, lo);
    SetEntryWellFormed(m, places, levels, root, t, Index(lo, k), Leaf(k, phys, write, nx));
    SetEntryKeepsLinks(m, places, t, Index(lo, k), Leaf(k, phys, write, nx), k);
    forall a: nat | a < PageBytes(levels) {
      InstallLeafAt(m, places, levels, root, t, k, lo, phys, write, nx, a);
    }
  }

  /** A freshly allocated table: zeroed memory. */
  function EmptyTable(): (rows: seq<Pte>)
    ensures |rows| == ENTRIES
    ensures forall i :: 0 <= i < ENTRIES ==> rows[i] == NotPresent
  {
    seq(ENTRIES, _ => NotPresent)
  }

  /** Hangs the new empty table `f` below entry `i` of `t`. */
  function Link(m: Memory, t: nat, i: nat, f: nat): Memory
    requires t in m && i < |m[t]| && f !in m
  {
    SetEntry(m[f := EmptyTable()], t, i, TableEntry(f))
  }

  lemma NewTableWellFormed(m: Memory, places: map<nat, Place>, levels: nat, root: nat, f: nat, p: Place)
    requires WellFormed(m, places, levels, root) && f !in m && p.level < levels
    ensures WellFormed(m[f := EmptyTable()], places[f := p], levels, root)
  {
    var m', places' := m[f := EmptyTable()], places[f := p];
    forall u, j | u in m' && 0 <= j < ENTRIES ensures WellFormedEntry(places', places'[u], j, m'[u][j]) {
      if u != f {
        assert WellFormedEntry(places, places[u], j, m[u][j]);
      }
    }
  }

  lemma InstallTableAt(m: Memory, places: map<nat, Place>, levels: nat, root: nat, t: nat, k: nat, lo: nat, f: nat, a: nat)
    requires WellFormed(m, places, levels, root) && f !in m
    requires 0 < k < levels && lo < PageBytes(levels) && a < PageBytes(levels)
    requires lo % PageBytes(k) == 0
    requires Descend(m, root, levels - 1, lo, k) == Some(t) && t in m && |m[t]| == ENTRIES && At(places, t, k, lo)
    requires places[t].region * 512 + Index(lo, k) == Region(lo, k)
    requires WellFormed(m[f := EmptyTable()], places[f := Place(k - 1, Region(lo, k))], levels, root)
    requires WellFormed(Link(m, t, Index(lo, k), f), places[f := Place(k - 1, Region(lo, k))], levels, root)
    requires Descend(m[f := EmptyTable()], root, levels - 1, lo, k) == Some(t)
    ensures View(Link(m, t, Index(lo, k), f), root, levels, a) ==
        if lo <= a < lo + PageBytes(k) then None else View(m, root, levels, a)
  {
    var m1, places' := m[f := EmptyTable()], places[f := Place(k - 1, Region(lo, k))];
    SameRegion(a, lo, k);
    if lo <= a < lo + PageBytes(k) {
      SetEntryKeepsLinks(m1, places', t, Index(lo, k), TableEntry(f), k);
      WalkThroughNewEntry(m1, places', levels, root, t, k, lo, TableEntry(f), a);
    } else {
      OutsideEntry(m1, places', levels, root, t, k, lo, TableEntry(f), a);
      RootAt(m, places, levels, root, a);
      WalkIgnoresNewTable(m, places, levels, root, root, levels - 1, a, f, EmptyTable());
    }
  }

  lemma DescentIntoLink(m: Memory, places: map<nat, Place>, levels: nat, root: nat, t: nat, j: nat, k: nat, a: nat)
    requires WellFormed(m, places, levels, root) && 0 < k <= j < levels && At(places, t, j, a)
    requires Descend(m, t, j, a, k).Some? && IsTable(EntryOf(m, Descend(m, t, j, a, k).value, k, a))
    ensures Descend(m, t, j, a, k - 1) == Some(EntryOf(m, Descend(m, t, j, a, k).value, k, a).addr)
    decreases j
  {
    if j > k {
      ChildPlace(m, places, levels, root, t, j, a);
      DescentIntoLink(m, places, levels, root, EntryOf(m, t, j, a).addr, j - 1, k, a);
    }
  }

  lemma LinkWellFormed(m: Memory, places: map<nat, Place>, levels: nat, root: nat, t: nat, k: nat, lo: nat, f: nat)
    requires WellFormed(m, places, levels, root) && 0 < k < levels && lo < PageBytes(levels) && f !in m
    requires Descend(m, root, levels - 1, lo, k) == Some(t)
    requires t in m && |m[t]| == ENTRIES && At(places, t, k, lo)
    requires places[t].region * 512 + Index(lo, k) == Region(lo, k)
    ensures var m1, places' := m[f := EmptyTable()], places[f := Place(k - 1, Region(lo, k))];
            && WellFormed(m1, places', levels, root)
            && WellFormed(Link(m, t, Index(lo, k), f), places', levels, root)
            && Descend(m1, root, levels - 1, lo, k) == Some(t)
  {
    var m1, places' := m[f := EmptyTable()], places[f := Place(k - 1, Region(lo, k))];
    NewTableWellFormed(m, places, levels, root, f, Place(k - 1, Region(lo, k)));
    SetEntryWellFormed(m1, places', levels, root, t, Index(lo, k), TableEntry(f));
    RootAt(m, places, levels, root, lo);
    DescentKept(m, m1, places, levels, root, root, levels - 1, lo, k, k);
  }

  lemma LinkDescends(m: Memory, places: map<nat, Place>, levels: nat, root: nat, t: nat, k: nat, lo: nat, virt: nat, f: nat)
    requires 0 < k < levels <= 5 && lo < PageBytes(levels) && virt < PageBytes(levels) && f !in m
    requires t in m && |m[t]| == ENTRIES && t in places && places[t].level == k && Region(virt, k) == Region(lo, k)
    requires var m1, places' := m[f := EmptyTable()], places[f := Place(k - 1, Region(lo, k))];
             && WellFormed(m1, places', levels, root)
             && WellFormed(Link(m, t, Index(lo, k), f), places', levels, root)
             && Descend(m1, root, levels - 1, lo, k) == Some(t)
    ensures Descend(Link(m, t, Index(lo, k), f), root, levels - 1, virt, k - 1) == Some(f)
  {
    var m1, places' := m[f := EmptyTable()], places[f := Place(k - 1, Region(lo, k))];
    SetEntryKeepsLinks(m1, places', t, Index(lo, k), TableEntry(f), k);
    WalkThroughNewEntry(m1, places', levels, root, t, k, lo, TableEntry(f), virt);
    RootAt(m1, places', levels, root, virt);
    DescentIntoLink(Link(m, t, Index(lo, k), f), places', levels, root, root, levels - 1, k, virt);
  }

  /** Replacing an absent entry or a large page by an empty table unmaps exactly that region. */
  lemma InstallTable(m: Memory, places: map<nat, Place>, levels: nat, root: nat, t: nat, k: nat, lo: nat, virt: nat, f: nat)
    requires WellFormed(m, places, levels, root) && 0 < k < levels && virt < PageBytes(levels) && f !in m
    requires lo % PageBytes(k) == 0 && lo <= virt < lo + PageBytes(k)
    requires Descend(m, root, levels - 1, virt, k) == Some(t)
    requires !IsTable(EntryOf(m, t, k, virt))
    ensures t in m && |m[t]| == ENTRIES
    ensures var m', places' := Link(m, t, Index(virt, k), f), places[f := Place(k - 1, Region(virt, k))];
            && WellFormed(m', places', levels, root)
            && LinksKept(m, m', places, 0)
            && Descend(m', root, levels - 1, virt, k - 1) == Some(f)
            && UnmapsRange(m, m', root, levels, lo, PageBytes(k))
  {
    SameRegion(virt, lo, k);
    RegionCoarser(virt, lo, k, k + 1);
    DescentOfRegion(m, root, levels - 1, virt, lo, k);
    PlaceOfDescent(m, places, levels, root, t, k, lo);
    LinkWellFormed(m, places, levels, root, t, k, lo, f);
    LinkDescends(m, places, levels, root, t, k, lo, virt, f);
    forall a: nat | a < PageBytes(levels) {
      InstallTableAt(m, places, levels, root, t, k, lo, f, a);
    }
  }

  ghost predicate PlacesKept(p0: map<nat, Place>, p1: map<nat, Place>)
  {
    forall t :: t in p0 ==> t in p1 && p1[t] == p0[t]
  }

  lemma LinksKeptTrans(m0: Memory, p0: map<nat, Place>, m1: Memory, p1: map<nat, Place>, m2: Memory, s: nat)
    requires LinksKept(m0, m1, p0, s) && LinksKept(m1, m2, p1, s) && PlacesKept(p0, p1)
    ensures LinksKept(m0, m2, p0, s)
  {
  }

  lemma FreshAddress(s: set<nat>)
    ensures exists t: nat :: t !in s
  {
    assert Above(s) !in s;
  }

  ghost function Above(s: set<nat>): (b: nat)
    ensures forall t :: t in s ==> t < b
  {
    if s == {} then 0
    else
      var x :| x in s;
      var b := Above(s - {x});
      assert forall t :: t in s ==> t == x || t in s - {x};
      if x < b then b else x + 1
  }

  /** While the walk for `lo` goes down from the state (m0, p0): the tree is now (m, p), no address has
      changed its meaning, no link above the wanted page size is lost, and the walk stands at `t`, level `k`. */
  ghost predicate Reaches(m0: Memory, p0: map<nat, Place>, m: Memory, p: map<nat, Place>,
                          levels: nat, root: nat, lo: nat, size: nat, t: nat, k: nat)
  {
    && WellFormed(m, p, levels, root) && size <= k < levels && lo < PageBytes(levels)
    && SameView(m0, m, root, levels)
    && PlacesKept(p0, p) && LinksKept(m0, m, p0, size)
    && Descend(m, root, levels - 1, lo, k) == Some(t)
  }

  lemma FollowTable(m0: Memory, p0: map<nat, Place>, m: Memory, p: map<nat, Place>,
                    levels: nat, root: nat, lo: nat, size: nat, t: nat, k: nat)
    requires Reaches(m0, p0, m, p, levels, root, lo, size, t, k) && size < k
    requires IsTable(EntryOf(m, t, k, lo))
    ensures Reaches(m0, p0, m, p, levels, root, lo, size, EntryOf(m, t, k, lo).addr, k - 1)
  {
    RootAt(m, p, levels, root, lo);
    DescentIntoLink(m, p, levels, root, root, levels - 1, k, lo);
  }

  /** The first address of the level-`k` region of `a`. */
  function RegionStart(a: nat, k: nat): nat
  {
    ModLe(a, PageBytes(k));
    a - a % PageBytes(k)
  }

  predicate StartsAt(base: nat, k: nat, lo: nat)
  {
    base % PageBytes(k) == 0 && base <= lo < base + PageBytes(k)
  }

  lemma RegionStartFacts(lo: nat, k: nat)
    ensures StartsAt(RegionStart(lo, k), k, lo)
  {
    var q, r := DivMod(lo, PageBytes(k));
    DivUnique(RegionStart(lo, k), q, 0, PageBytes(k));
  }

  /** What the tree says about a region whose level-`k` entry is known. */
  lemma ViewOfRegion(m: Memory, p: map<nat, Place>, levels: nat, root: nat, t: nat, k: nat, lo: nat, base: nat, a: nat)
    requires WellFormed(m, p, levels, root) && k < levels && lo < PageBytes(levels) && a < PageBytes(levels)
    requires Descend(m, root, levels - 1, lo, k) == Some(t)
    requires StartsAt(base, k, lo) && base <= a < base + PageBytes(k)
    ensures EntryOf(m, t, k, a) == EntryOf(m, t, k, lo)
    ensures View(m, root, levels, a) == Walk(m, t, k, a)
    ensures a % PageBytes(k) == a - base
  {
    SameRegion(a, base, k);
    SameRegion(lo, base, k);
    RegionCoarser(a, lo, k, k + 1);
    DescentOfRegion(m, root, levels - 1, a, lo, k);
    PlaceOfDescent(m, p, levels, root, t, k, a);
  }

  lemma LinkReaches(m0: Memory, p0: map<nat, Place>, m: Memory, p: map<nat, Place>,
                    levels: nat, root: nat, lo: nat, size: nat, t: nat, k: nat, base: nat, f: nat)
    requires Reaches(m0, p0, m, p, levels, root, lo, size, t, k) && size < k && f !in m
    requires !IsTable(EntryOf(m, t, k, lo)) && StartsAt(base, k, lo)
    ensures t in m && |m[t]| == ENTRIES
    ensures var m', p' := Link(m, t, Index(lo, k), f), p[f := Place(k - 1, Region(lo, k))];
            && WellFormed(m', p', levels, root)
            && PlacesKept(p0, p') && LinksKept(m0, m', p0, size)
            && Descend(m', root, levels - 1, lo, k - 1) == Some(f)
            && UnmapsRange(m, m', root, levels, base, PageBytes(k))
  {
    InstallTable(m, p, levels, root, t, k, base, lo, f);
    LinksKeptTrans(m0, p0, m, p, Link(m, t, Index(lo, k), f), size);
  }

  lemma FillAbsent(m0: Memory, p0: map<nat, Place>, m: Memory, p: map<nat, Place>,
                   levels: nat, root: nat, lo: nat, size: nat, t: nat, k: nat, base: nat, f: nat)
    requires Reaches(m0, p0, m, p, levels, root, lo, size, t, k) && size < k && f !in m
    requires !EntryOf(m, t, k, lo).valid && StartsAt(base, k, lo)
    ensures t in m && |m[t]| == ENTRIES
    ensures Reaches(m0, p0, Link(m, t, Index(lo, k), f), p[f := Place(k - 1, Region(lo, k))],
                    levels, root, lo, size, f, k - 1)
  {
    LinkReaches(m0, p0, m, p, levels, root, lo, size, t, k, base, f);
    var m' := Link(m, t, Index(lo, k), f);
    forall a: nat | a < PageBytes(levels) ensures View(m', root, levels, a) == View(m0, root, levels, a) {
      if base <= a < base + PageBytes(k) {
        ViewOfRegion(m, p, levels, root, t, k, lo, base, a);
      }
    }
  }

  /** The page at `base` of level `k`, half rebuilt: its addresses below `at` are mapped again. */
  ghost predicate Rebuilt(m0: Memory, p0: map<nat, Place>, m: Memory, p: map<nat, Place>,
                          levels: nat, root: nat, lo: nat, size: nat, f: nat, k: nat, base: nat, at: nat)
  {
    && WellFormed(m, p, levels, root) && size < k < levels && lo < PageBytes(levels)
    && PlacesKept(p0, p) && LinksKept(m0, m, p0, size)
    && Descend(m, root, levels - 1, lo, k - 1) == Some(f)
    && HalfMapped(m0, m, levels, root, at, base + PageBytes(k))
  }

  ghost predicate HalfMapped(m0: Memory, m: Memory, levels: nat, root: nat, from: nat, to: nat)
    requires 0 < levels <= 5
  {
    forall a: nat :: a < PageBytes(levels) ==>
      View(m, root, levels, a) == if from <= a < to then None else View(m0, root, levels, a)
  }

  lemma StillBlank(m0: Memory, p0: map<nat, Place>, m: Memory, p: map<nat, Place>,
                   levels: nat, root: nat, lo: nat, size: nat, f: nat, k: nat, base: nat, at: nat)
    requires Rebuilt(m0, p0, m, p, levels, root, lo, size, f, k, base, at) && at < base + PageBytes(k) && at < PageBytes(levels)
    ensures View(m, root, levels, at) == None
  {
  }

  /** The addresses [base, base + n) are mapped as one page. */
  ghost predicate OnePage(m: Memory, levels: nat, root: nat, base: nat, n: nat, phys: nat, write: bool, nx: bool)
    requires 0 < levels <= 5
  {
    forall a: nat :: a < PageBytes(levels) && base <= a < base + n ==>
      View(m, root, levels, a) == Some(Mapping(phys + (a - base), write, nx))
  }

  lemma ViewOfLarge(m: Memory, p: map<nat, Place>, levels: nat, root: nat, t: nat, k: nat, lo: nat, base: nat, a: nat)
    requires WellFormed(m, p, levels, root) && k < levels && lo < PageBytes(levels) && a < PageBytes(levels)
    requires Descend(m, root, levels - 1, lo, k) == Some(t) && IsLarge(EntryOf(m, t, k, lo))
    requires StartsAt(base, k, lo) && base <= a < base + PageBytes(k)
    ensures var e := EntryOf(m, t, k, lo);
            View(m, root, levels, a) == Some(Mapping(e.addr + (a - base), e.write, e.nx))
  {
    ViewOfRegion(m, p, levels, root, t, k, lo, base, a);
  }

  lemma LargeIsOnePage(m0: Memory, p0: map<nat, Place>, m: Memory, p: map<nat, Place>,
                       levels: nat, root: nat, lo: nat, size: nat, t: nat, k: nat, base: nat)
    requires Reaches(m0, p0, m, p, levels, root, lo, size, t, k) && k > 0
    requires IsLarge(EntryOf(m, t, k, lo)) && StartsAt(base, k, lo)
    ensures var e := EntryOf(m, t, k, lo);
            && OnePage(m0, levels, root, base, PageBytes(k), e.addr, e.write, e.nx)
            && k <= 2 && e.addr % PageBytes(k) == 0
  {
    PlaceOfDescent(m, p, levels, root, t, k, lo);
    ChildPlace(m, p, levels, root, t, k, lo);
    forall a: nat | a < PageBytes(levels) && base <= a < base + PageBytes(k) {
      ViewOfLarge(m, p, levels, root, t, k, lo, base, a);
    }
  }

  lemma BeginSplit(m0: Memory, p0: map<nat, Place>, m: Memory, p: map<nat, Place>,
                   levels: nat, root: nat, lo: nat, size: nat, t: nat, k: nat, base: nat, f: nat)
    requires Reaches(m0, p0, m, p, levels, root, lo, size, t, k) && size < k && f !in m
    requires IsLarge(EntryOf(m, t, k, lo)) && StartsAt(base, k, lo)
    ensures t in m && |m[t]| == ENTRIES
    ensures Rebuilt(m0, p0, Link(m, t, Index(lo, k), f), p[f := Place(k - 1, Region(lo, k))],
                    levels, root, lo, size, f, k, base, base)
  {
    LinkReaches(m0, p0, m, p, levels, root, lo, size, t, k, base, f);
  }

  lemma MapShrinksHole(m0: Memory, m: Memory, m': Memory, levels: nat, root: nat,
                       base: nat, size: nat, at: nat, n: nat, phys: nat, to: nat, write: bool, nx: bool)
    requires 0 < levels <= 5 && base <= at && at + n <= base + size && to == phys + (at - base)
    requires HalfMapped(m0, m, levels, root, at, base + size)
    requires OnePage(m0, levels, root, base, size, phys, write, nx)
    requires MapsRange(m, m', root, levels, at, n, to, write, nx)
    ensures HalfMapped(m0, m', levels, root, at + n, base + size)
  {
  }

  lemma SplitStep(m0: Memory, p0: map<nat, Place>, m: Memory, p: map<nat, Place>, m': Memory, p': map<nat, Place>,
                  levels: nat, root: nat, lo: nat, size: nat, f: nat, k: nat, base: nat, at: nat, n: nat,
                  phys: nat, to: nat, write: bool, nx: bool)
    requires Rebuilt(m0, p0, m, p, levels, root, lo, size, f, k, base, at)
    requires OnePage(m0, levels, root, base, PageBytes(k), phys, write, nx)
    requires WellFormed(m', p', levels, root) && PlacesKept(p, p') && LinksKept(m, m', p, size)
    requires base <= at && at + n <= base + PageBytes(k) && to == phys + (at - base)
    requires MapsRange(m, m', root, levels, at, n, to, write, nx)
    ensures Rebuilt(m0, p0, m', p', levels, root, lo, size, f, k, base, at + n)
  {
    PathKept(m0, p0, m, p, m', p', levels, root, lo, size, f, k);
    MapShrinksHole(m0, m, m', levels, root, base, PageBytes(k), at, n, phys, to, write, nx);
  }

  /** The way to the table `f` stays as it is. */
  lemma PathKept(m0: Memory, p0: map<nat, Place>, m: Memory, p: map<nat, Place>, m': Memory, p': map<nat, Place>,
                 levels: nat, root: nat, lo: nat, size: nat, f: nat, k: nat)
    requires WellFormed(m, p, levels, root) && size < k < levels && lo < PageBytes(levels)
    requires PlacesKept(p0, p) && LinksKept(m0, m, p0, size) && Descend(m, root, levels - 1, lo, k - 1) == Some(f)
    requires WellFormed(m', p', levels, root) && PlacesKept(p, p') && LinksKept(m, m', p, size)
    ensures PlacesKept(p0, p') && LinksKept(m0, m', p0, size) && Descend(m', root, levels - 1, lo, k - 1) == Some(f)
  {
    LinksKeptTrans(m0, p0, m, p, m', size);
    RootAt(m, p, levels, root, lo);
    DescentKept(m, m', p, levels, root, root, levels - 1, lo, k - 1, size);
  }

  lemma EndSplit(m0: Memory, p0: map<nat, Place>, m: Memory, p: map<nat, Place>,
                 levels: nat, root: nat, lo: nat, size: nat, f: nat, k: nat, base: nat)
    requires Rebuilt(m0, p0, m, p, levels, root, lo, size, f, k, base, base + PageBytes(k))
    ensures Reaches(m0, p0, m, p, levels, root, lo, size, f, k - 1)
  {
  }

  lemma MapsRangeExtends(m0: Memory, m: Memory, m': Memory, root: nat, levels: nat,
                         lo: nat, i: nat, n: nat, phys: nat, write: bool, nx: bool)
    requires 0 < levels <= 5
    requires MapsRange(m0, m, root, levels, lo, i, phys, write, nx)
    requires MapsRange(m, m', root, levels, lo + i, n, phys + i, write, nx)
    ensures MapsRange(m0, m', root, levels, lo, i + n, phys, write, nx)
  {
  }

  /** The i-th piece of a split page: aligned, inside the page, and where the walk expects it. */
  lemma RebuildAddress(base: nat, levels: nat, size: nat, k: nat, phys: nat, i: nat)
    requires size <= k <= levels && i < PageBytes(k)
    requires i % PageBytes(size) == 0 && phys % PageBytes(k) == 0 && base % PageBytes(k) == 0
    ensures Low(base + i, levels) == Low(base, levels) + i < PageBytes(levels)
    ensures (base + i) % PageBytes(size) == 0 && (phys + i) % PageBytes(size) == 0
    ensures i + PageBytes(size) <= PageBytes(k) && (i + PageBytes(size)) % PageBytes(size) == 0
  {
    LowAligned(base, levels, k);
    LowOfOffset(base, levels, k, i);
    FinerAlignment(size, k, base);
    FinerAlignment(size, k, phys);
    AlignedSum(size, base, i);
    AlignedSum(size, phys, i);
    NestedFits(size, k, i);
  }

  lemma StartOfLow(virt: nat, levels: nat, k: nat)
    requires k <= levels
    ensures StartsAt(Low(RegionStart(virt, k), levels), k, Low(virt, levels))
  {
    var base := RegionStart(virt, k);
    RegionStartFacts(virt, k);
    LowAligned(base, levels, k);
    LowOfOffset(base, levels, k, virt - base);
  }

  /** Writing the page in the table reached completes the mapping. */
  lemma FinishPage(m0: Memory, p0: map<nat, Place>, m: Memory, p: map<nat, Place>,
                   levels: nat, root: nat, lo: nat, size: nat, t: nat, phys: nat, write: bool, nx: bool)
    requires Reaches(m0, p0, m, p, levels, root, lo, size, t, size) && size <= 2
    requires lo % PageBytes(size) == 0 && phys % PageBytes(size) == 0
    ensures t in m && |m[t]| == ENTRIES
    ensures var m' := SetEntry(m, t, Index(lo, size), Leaf(size, phys, write, nx));
            && WellFormed(m', p, levels, root)
            && PlacesKept(p0, p) && LinksKept(m0, m', p0, size)
            && MapsRange(m0, m', root, levels, lo, PageBytes(size), phys, write, nx)
  {
    InstallLeaf(m, p, levels, root, t, size, lo, phys, write, nx);
    LinksKeptTrans(m0, p0, m, p, SetEntry(m, t, Index(lo, size), Leaf(size, phys, write, nx)), size);
  }

  /** A processor without 1 GiB pages finds none in the tables that could hold them. */
  ghost predicate Supported(gigabytePages: bool, m: Memory, p: map<nat, Place>) {
    gigabytePages ||
    forall t, i :: t in m && t in p && p[t].level == 2 && 0 <= i < |m[t]| ==> !IsLarge(m[t][i])
  }

  lemma SupportedLink(gigabytePages: bool, m: Memory, p: map<nat, Place>, t: nat, i: nat, f: nat, place: Place)
    requires Supported(gigabytePages, m, p) && t in m && i < |m[t]| && f !in m
    ensures Supported(gigabytePages, Link(m, t, i, f), p[f := place])
  {
  }

  lemma SupportedEntry(gigabytePages: bool, m: Memory, p: map<nat, Place>, t: nat, i: nat, e: Pte)
    requires Supported(gigabytePages, m, p) && t in m && i < |m[t]|
    requires gigabytePages || (t in p && p[t].level != 2) || !IsLarge(e)
    ensures Supported(gigabytePages, SetEntry(m, t, i, e), p)
  {
  }

  /** The page is one entry of a table at its level. */
  ghost predicate OneEntry(m: Memory, root: nat, levels: nat, lo: nat, size: nat, phys: nat, write: bool, nx: bool)
    requires size < levels <= 5
  {
    var t := Descend(m, root, levels - 1, lo, size);
    t.Some? && EntryOf(m, t.value, size, lo) == Pte(true, write, false, size > 0, nx, phys)
  }

  /** The entry just written is the one that the walk comes to. */
  lemma LeafReached(m: Memory, p: map<nat, Place>, levels: nat, root: nat, lo: nat, size: nat, t: nat, phys: nat, write: bool, nx: bool)
    requires WellFormed(m, p, levels, root) && size < levels && lo < PageBytes(levels)
    requires Descend(m, root, levels - 1, lo, size) == Some(t) && t in m && |m[t]| == ENTRIES
    ensures p[t].level == size
    ensures OneEntry(SetEntry(m, t, Index(lo, size), Leaf(size, phys, write, nx)), root, levels, lo, size, phys, write, nx)
  {
    var m' := SetEntry(m, t, Index(lo, size), Leaf(size, phys, write, nx));
    PlaceOfDescent(m, p, levels, root, t, size, lo);
    RootAt(m, p, levels, root, lo);
    SetEntryKeepsLinks(m, p, t, Index(lo, size), Leaf(size, phys, write, nx), size);
    DescentKept(m, m', p, levels, root, root, levels - 1, lo, size, size);
  }

  /** The meaning of address `a` after the first `n` 4 KiB pages of a request were mapped one by one. */
  function OneByOne(prior: Option<Mapping>, a: nat, levels: nat, virt: nat, phys: nat, write: bool, nx: bool, n: nat): Option<Mapping>
  {
    if n == 0 then prior
    else
      var lo := Low(virt + (n - 1) * 0x1000, levels);
      if lo <= a < lo + 0x1000 then Some(Mapping(phys + (n - 1) * 0x1000 + (a - lo), write, nx))
      else OneByOne(prior, a, levels, virt, phys, write, nx, n - 1)
  }

  ghost predicate MapsOneByOne(m0: Memory, m: Memory, root: nat, levels: nat,
                               virt: nat, phys: nat, write: bool, nx: bool, n: nat)
    requires 0 < levels <= 5
  {
    forall a: nat :: a < PageBytes(levels) ==>
      View(m, root, levels, a) == OneByOne(View(m0, root, levels, a), a, levels, virt, phys, write, nx, n)
  }

  /** One page of level `k` is the same as its 4 KiB pages in turn. */
  lemma {:induction false} LargeIsManySmall(prior: Option<Mapping>, a: nat, levels: nat, virt: nat, phys: nat,
                                            write: bool, nx: bool, n: nat, k: nat, j: nat)
    requires k <= levels && (virt + n * 0x1000) % PageBytes(k) == 0 && j * 0x1000 <= PageBytes(k)
    ensures var lo := Low(virt + n * 0x1000, levels);
            OneByOne(prior, a, levels, virt, phys, write, nx, n + j) ==
              if lo <= a < lo + j * 0x1000 then Some(Mapping(phys + n * 0x1000 + (a - lo), write, nx))
              else OneByOne(prior, a, levels, virt, phys, write, nx, n)
  {
    if j == 0 {
    } else {
      LargeIsManySmall(prior, a, levels, virt, phys, write, nx, n, k, j - 1);
      LowOfOffset(virt + n * 0x1000, levels, k, (j - 1) * 0x1000);
      assert virt + n * 0x1000 + (j - 1) * 0x1000 == virt + (n + j - 1) * 0x1000;
    }
  }

  lemma LargeStepIsManySmall(m0: Memory, m: Memory, m': Memory, root: nat, levels: nat,
                             virt: nat, phys: nat, write: bool, nx: bool, n: nat, k: nat, j: nat)
    requires 0 < levels <= 5 && k <= levels && (virt + n * 0x1000) % PageBytes(k) == 0 && j * 0x1000 == PageBytes(k)
    requires MapsOneByOne(m0, m, root, levels, virt, phys, write, nx, n)
    requires MapsRange(m, m', root, levels, Low(virt + n * 0x1000, levels), PageBytes(k), phys + n * 0x1000, write, nx)
    ensures MapsOneByOne(m0, m', root, levels, virt, phys, write, nx, n + j)
  {
    forall a: nat | a < PageBytes(levels)
      ensures View(m', root, levels, a) == OneByOne(View(m0, root, levels, a), a, levels, virt, phys, write, nx, n + j)
    {
      LargeIsManySmall(View(m0, root, levels, a), a, levels, virt, phys, write, nx, n, k, j);
    }
  }

  /** How far address `a` lies beyond `virt`, going round the address space. */
  function Beyond(a: nat, virt: nat, levels: nat): nat
    requires a < PageBytes(levels)
  {
    if a >= Low(virt, levels) then a - Low(virt, levels) else a + PageBytes(levels) - Low(virt, levels)
  }

  lemma LowOfSum(virt: nat, x: nat, levels: nat)
    requires x < PageBytes(levels)
    ensures Low(virt + x, levels) ==
      if Low(virt, levels) + x < PageBytes(levels) then Low(virt, levels) + x
      else Low(virt, levels) + x - PageBytes(levels)
  {
    var span := PageBytes(levels);
    var c, v := DivMod(virt, span);
    if v + x < span {
      DivUnique(virt + x, c, v + x, span);
    } else {
      Distribute(c, 1, span);
      DivUnique(virt + x, c + 1, v + x - span, span);
    }
  }

  /** A request no longer than the address space maps exactly the addresses less than its length beyond `virt`. */
  lemma {:induction false} OneByOneClosed(prior: Option<Mapping>, a: nat, levels: nat, virt: nat, phys: nat,
                                          write: bool, nx: bool, n: nat)
    requires virt % 0x1000 == 0 && n * 0x1000 <= PageBytes(levels) && a < PageBytes(levels)
    ensures OneByOne(prior, a, levels, virt, phys, write, nx, n) ==
      if Beyond(a, virt, levels) < n * 0x1000 then Some(Mapping(phys + Beyond(a, virt, levels), write, nx)) else prior
  {
    if n == 0 {
    } else {
      OneByOneClosed(prior, a, levels, virt, phys, write, nx, n - 1);
      PageBeyond(a, virt, levels, (n - 1) * 0x1000);
    }
  }

  /** An address is in the page `x` beyond the start exactly when it is itself from `x` up to a page further beyond. */
  lemma PageBeyond(a: nat, virt: nat, levels: nat, x: nat)
    requires virt % 0x1000 == 0 && x % 0x1000 == 0 && x + 0x1000 <= PageBytes(levels) && a < PageBytes(levels)
    ensures var lo := Low(virt + x, levels);
            && (lo <= a < lo + 0x1000 <==> x <= Beyond(a, virt, levels) < x + 0x1000)
            && (lo <= a < lo + 0x1000 ==> a - lo == Beyond(a, virt, levels) - x)
  {
    LowOfSum(virt, x, levels);
    assert PageBytes(0) == 0x1000;
    AlignedSum(0, virt, x);
    LowAligned(virt + x, levels, 0);
    Cyclic(a, Low(virt, levels), x, PageBytes(levels), Low(virt + x, levels));
  }

  lemma Cyclic(a: nat, start: nat, x: nat, span: nat, lo: nat)
    requires a < span && start < span && x + 0x1000 <= span && lo + 0x1000 <= span
    requires lo == if start + x < span then start + x else start + x - span
    ensures var beyond := if a >= start then a - start else a + span - start;
            && (lo <= a < lo + 0x1000 <==> x <= beyond < x + 0x1000)
            && (lo <= a < lo + 0x1000 ==> a - lo == beyond - x)
  {
  }

  /** So a request no longer than the address space translates exactly its own range and nothing else. */
  lemma CoversExactly(m: Memory, m': Memory, root: nat, levels: nat, virt: nat, phys: nat, write: bool, nx: bool, count: nat, a: nat)
    requires 0 < levels <= 5 && virt % 0x1000 == 0 && count % 0x1000 == 0 && count <= PageBytes(levels) && a < PageBytes(levels)
    requires MapsOneByOne(m, m', root, levels, virt, phys, write, nx, count / 0x1000)
    ensures View(m', root, levels, a) ==
            if Beyond(a, virt, levels) < count then Some(Mapping(phys + Beyond(a, virt, levels), write, nx)) else View(m, root, levels, a)
  {
    OneByOneClosed(View(m, root, levels, a), a, levels, virt, phys, write, nx, count / 0x1000);
  }

  lemma PageSizes()
    ensures PageBytes(0) == 0x1000 && PageBytes(1) == 0x20_0000 && PageBytes(2) == 0x4000_0000
    ensures PageBytes(4) == 0x1_0000_0000_0000 && PageBytes(5) == 0x200_0000_0000_0000
  {
    assert PageBytes(1) == 512 * PageBytes(0);
    assert PageBytes(3) == 512 * PageBytes(2);
    assert PageBytes(5) == 512 * PageBytes(4);
  }

  predicate Fits(virt: nat, phys: nat, rest: nat, size: nat)
  {
    virt % PageBytes(size) == 0 && phys % PageBytes(size) == 0 && PageBytes(size) <= rest
  }

  /** The largest page that is aligned on both sides and no longer than the rest of the request. */
  function LargestFit(virt: nat, phys: nat, rest: nat): (size: nat)
    requires virt % 0x1000 == 0 && phys % 0x1000 == 0 && rest % 0x1000 == 0 && rest > 0
    ensures size <= 2 && Fits(virt, phys, rest, size) && PageBytes(size) % 0x1000 == 0
    ensures forall k :: size < k <= 2 ==> !Fits(virt, phys, rest, k)
  {
    PageSizes();
    if phys % 0x4000_0000 == 0 && virt % 0x4000_0000 == 0 && rest >= 0x4000_0000 then 2
    else if phys % 0x20_0000 == 0 && virt % 0x20_0000 == 0 && rest >= 0x20_0000 then 1
    else 0
  }

  class Vmm {
    const levels: nat
    const root: nat
    const gigabytePages: bool
    var mem: Memory
    ghost var places: map<nat, Place>

    ghost predicate Valid()
      reads this
    {
      WellFormed(mem, places, levels, root) && Supported(gigabytePages, mem, places)
    }

    /** An empty tree of 4 or 5 levels at the table `top`. */
    constructor (fiveLevels: bool, hasGigabytePages: bool, top: nat)
      ensures Valid() && levels == (if fiveLevels then 5 else 4) && gigabytePages == hasGigabytePages
      ensures root == top && forall a: nat :: View(mem, root, levels, a) == None
    {
      levels := if fiveLevels then 5 else 4;
      root := top;
      gigabytePages := hasGigabytePages;
      mem := map[top := EmptyTable()];
      places := map[top := Place(if fiveLevels then 4 else 3, 0)];
    }

    /** A zeroed page of physical memory that holds no table yet. */
    method AllocTable() returns (t: nat)
      ensures t !in mem
    {
      FreshAddress(mem.Keys);
      t :| t !in mem;
    }

    /** The table below entry `virt` of the level-`k` table `t`. A large page in the way is
        first rebuilt out of pages of the wanted size; no address changes its meaning. */
    method GetNextLevel(t: nat, virt: nat, size: nat, k: nat,
                        ghost m0: Memory, ghost p0: map<nat, Place>, ghost blank: bool) returns (next: nat)
      requires size <= 2 && size < k
      requires Reaches(m0, p0, mem, places, levels, root, Low(virt, levels), size, t, k)
      requires blank ==> View(m0, root, levels, Low(virt, levels)) == None
      requires Supported(gigabytePages, mem, places)
      modifies this
      ensures Reaches(m0, p0, mem, places, levels, root, Low(virt, levels), size, next, k - 1)
      ensures Supported(gigabytePages, mem, places)
      decreases size, if blank then 0 else 1, 0
    {
      ghost var lo := Low(virt, levels);
      IndexOfLow(virt, levels, k);
      var e := EntryOf(mem, t, k, virt);
      if IsTable(e) {
        FollowTable(m0, p0, mem, places, levels, root, lo, size, t, k);
        next := e.addr;
        return;
      }
      ghost var base := Low(RegionStart(virt, k), levels);
      StartOfLow(virt, levels, k);
      next := AllocTable();
      if IsLarge(e) {
        LargeIsOnePage(m0, p0, mem, places, levels, root, lo, size, t, k, base);
        SplitLarge(t, virt, e, size, k, next, lo, base, m0, p0);
      } else {
        FillAbsent(m0, p0, mem, places, levels, root, lo, size, t, k, base, next);
        HangTable(t, Index(virt, k), next, Place(k - 1, Region(lo, k)));
      }
    }

    /** The new table `next` is hung below entry `i` of `t`. */
    method HangTable(t: nat, i: nat, next: nat, ghost place: Place)
      requires t in mem && i < |mem[t]| && next !in mem && Supported(gigabytePages, mem, places)
      modifies this
      ensures mem == Link(old(mem), t, i, next) && places == old(places)[next := place]
      ensures Supported(gigabytePages, mem, places)
    {
      SupportedLink(gigabytePages, mem, places, t, i, next, place);
      mem := Link(mem, t, i, next);
      places := places[next := place];
    }

    /** The large page `e` in the way is taken out and recreated below the new table. */
    method SplitLarge(t: nat, virt: nat, e: Pte, size: nat, k: nat, next: nat,
                      ghost lo: nat, ghost base: nat, ghost m0: Memory, ghost p0: map<nat, Place>)
      requires size <= 2 && size < k && lo == Low(virt, levels) && next !in mem && Index(lo, k) == Index(virt, k)
      requires Reaches(m0, p0, mem, places, levels, root, lo, size, t, k) && Supported(gigabytePages, mem, places)
      requires e == EntryOf(mem, t, k, lo) && IsLarge(e) && base == Low(RegionStart(virt, k), levels) && StartsAt(base, k, lo)
      requires OnePage(m0, levels, root, base, PageBytes(k), e.addr, e.write, e.nx) && e.addr % PageBytes(k) == 0
      modifies this
      ensures Reaches(m0, p0, mem, places, levels, root, lo, size, next, k - 1) && Supported(gigabytePages, mem, places)
      decreases size, 0, 6
    {
      BeginSplit(m0, p0, mem, places, levels, root, lo, size, t, k, base, next);
      HangTable(t, Index(virt, k), next, Place(k - 1, Region(lo, k)));
      RegionStartFacts(virt, k);
      Rebuild(RegionStart(virt, k), e, size, k, lo, m0, p0, next);
    }

    /** Recreates the old large page at `oldVirt` with smaller pages. */
    method Rebuild(oldVirt: nat, e: Pte, size: nat, k: nat,
                   ghost lo: nat, ghost m0: Memory, ghost p0: map<nat, Place>, ghost f: nat)
      requires size <= 2 && size < k < levels <= 5 && oldVirt % PageBytes(k) == 0
      requires Rebuilt(m0, p0, mem, places, levels, root, lo, size, f, k, Low(oldVirt, levels), Low(oldVirt, levels))
      requires OnePage(m0, levels, root, Low(oldVirt, levels), PageBytes(k), e.addr, e.write, e.nx)
      requires e.addr % PageBytes(k) == 0 && Supported(gigabytePages, mem, places)
      modifies this
      ensures Reaches(m0, p0, mem, places, levels, root, lo, size, f, k - 1) && Supported(gigabytePages, mem, places)
      decreases size, 0, 5
    {
      ghost var base := Low(oldVirt, levels);
      var i := 0;
      while i < PageBytes(k)
        invariant i <= PageBytes(k) && i % PageBytes(size) == 0
        invariant Rebuilt(m0, p0, mem, places, levels, root, lo, size, f, k, base, base + i)
        invariant Supported(gigabytePages, mem, places)
      {
        i := RebuildAt(oldVirt, e, size, k, i, base, lo, m0, p0, f);
      }
      EndSplit(m0, p0, mem, places, levels, root, lo, size, f, k, base);
    }

    /** The next piece is recreated. */
    method RebuildAt(oldVirt: nat, e: Pte, size: nat, k: nat, i: nat,
                     ghost base: nat, ghost lo: nat, ghost m0: Memory, ghost p0: map<nat, Place>, ghost f: nat) returns (j: nat)
      requires size <= 2 && size < k < levels <= 5 && oldVirt % PageBytes(k) == 0 && base == Low(oldVirt, levels)
      requires i < PageBytes(k) && i % PageBytes(size) == 0 && e.addr % PageBytes(k) == 0
      requires Rebuilt(m0, p0, mem, places, levels, root, lo, size, f, k, base, base + i)
      requires OnePage(m0, levels, root, base, PageBytes(k), e.addr, e.write, e.nx)
      requires Supported(gigabytePages, mem, places)
      modifies this
      ensures Supported(gigabytePages, mem, places)
      ensures i < j <= PageBytes(k) && j % PageBytes(size) == 0
      ensures Rebuilt(m0, p0, mem, places, levels, root, lo, size, f, k, base, base + j)
      decreases size, 0, 4
    {
      RebuildAddress(oldVirt, levels, size, k, e.addr, i);
      j := i + PageBytes(size);
      ghost var at, next := base + i, base + j;
      assert next == at + PageBytes(size);
      RebuildPiece(oldVirt + i, e.addr + i, e, size, k, at, base, lo, m0, p0, f);
    }

    method RebuildPiece(virt: nat, phys: nat, e: Pte, size: nat, k: nat, ghost at: nat,
                        ghost base: nat, ghost lo: nat, ghost m0: Memory, ghost p0: map<nat, Place>, ghost f: nat)
      requires size <= 2 && at == Low(virt, levels) < PageBytes(levels)
      requires Rebuilt(m0, p0, mem, places, levels, root, lo, size, f, k, base, at)
      requires OnePage(m0, levels, root, base, PageBytes(k), e.addr, e.write, e.nx)
      requires base <= at && at + PageBytes(size) <= base + PageBytes(k) && phys == e.addr + (at - base)
      requires virt % PageBytes(size) == 0 && phys % PageBytes(size) == 0 && Supported(gigabytePages, mem, places)
      modifies this
      ensures Supported(gigabytePages, mem, places)
      ensures Rebuilt(m0, p0, mem, places, levels, root, lo, size, f, k, base, at + PageBytes(size))
      decreases size, 0, 3
    {
      ghost var m, p := mem, places;
      StillBlank(m0, p0, m, p, levels, root, lo, size, f, k, base, at);
      MapPage(virt, phys, e.write, e.nx, size, true);
      assert MapsRange(m, mem, root, levels, at, PageBytes(size), phys, e.write, e.nx);
      SplitStep(m0, p0, m, p, mem, places, levels, root, lo, size, f, k, base, at, PageBytes(size),
                e.addr, phys, e.write, e.nx);
    }

    /** Makes the page at `virt` translate to `phys` with the given rights, and changes nothing else. */
    method MapPage(virt: nat, phys: nat, write: bool, nx: bool, size: nat, ghost blank: bool)
      requires Valid() && size <= 2
      requires virt % PageBytes(size) == 0 && phys % PageBytes(size) == 0
      requires blank ==> View(mem, root, levels, Low(virt, levels)) == None
      modifies this
      ensures Valid() && MapsRange(old(mem), mem, root, levels, Low(virt, levels), PageBytes(size), phys, write, nx)
      ensures PlacesKept(old(places), places) && LinksKept(old(mem), mem, old(places), size)
      ensures size < 2 || gigabytePages ==> OneEntry(mem, root, levels, Low(virt, levels), size, phys, write, nx)
      decreases size, if blank then 0 else 1, 2
    {
      ghost var lo, m0, p0 := Low(virt, levels), mem, places;
      LowAligned(virt, levels, size);
      var pml4 := root;
      if levels == 5 {
        pml4 := GetNextLevel(root, virt, size, 4, m0, p0, blank);
      }
      var pml3 := GetNextLevel(pml4, virt, size, 3, m0, p0, blank);
      if size == 2 {
        MapGigabyte(pml3, virt, phys, write, nx, m0, p0);
        return;
      }
      MapBelow(pml3, virt, phys, write, nx, size, m0, p0, blank);
    }

    /** The page goes to a table below the one reached at level 2. */
    method MapBelow(pml3: nat, virt: nat, phys: nat, write: bool, nx: bool, size: nat,
                    ghost m0: Memory, ghost p0: map<nat, Place>, ghost blank: bool)
      requires size < 2 && Low(virt, levels) % PageBytes(size) == 0 && phys % PageBytes(size) == 0
      requires Reaches(m0, p0, mem, places, levels, root, Low(virt, levels), size, pml3, 2)
      requires Supported(gigabytePages, mem, places) && (blank ==> View(m0, root, levels, Low(virt, levels)) == None)
      modifies this
      ensures Valid() && MapsRange(m0, mem, root, levels, Low(virt, levels), PageBytes(size), phys, write, nx)
      ensures PlacesKept(p0, places) && LinksKept(m0, mem, p0, size)
      ensures OneEntry(mem, root, levels, Low(virt, levels), size, phys, write, nx)
      decreases size, if blank then 0 else 1, 1
    {
      var pml2 := GetNextLevel(pml3, virt, size, 2, m0, p0, blank);
      if size == 1 {
        SetLeaf(pml2, virt, phys, write, nx, 1, m0, p0);
        return;
      }
      var pml1 := GetNextLevel(pml2, virt, size, 1, m0, p0, blank);
      SetLeaf(pml1, virt, phys, write, nx, 0, m0, p0);
    }

    /** A 1 GiB page is one entry if the processor has such pages. */
    method MapGigabyte(t: nat, virt: nat, phys: nat, write: bool, nx: bool, ghost m0: Memory, ghost p0: map<nat, Place>)
      requires Reaches(m0, p0, mem, places, levels, root, Low(virt, levels), 2, t, 2) && Supported(gigabytePages, mem, places)
      requires virt % PageBytes(2) == 0 && phys % PageBytes(2) == 0 && Low(virt, levels) % PageBytes(2) == 0
      modifies this
      ensures Valid() && MapsRange(m0, mem, root, levels, Low(virt, levels), PageBytes(2), phys, write, nx)
      ensures PlacesKept(p0, places) && LinksKept(m0, mem, p0, 2)
      ensures gigabytePages ==> OneEntry(mem, root, levels, Low(virt, levels), 2, phys, write, nx)
      decreases 2, 0, 0
    {
      if gigabytePages {
        SetLeaf(t, virt, phys, write, nx, 2, m0, p0);
      } else {
        EmulateGigabytePage(virt, phys, write, nx, m0, p0);
      }
    }

    /** Without hardware support a 1 GiB page is 512 pages of 2 MiB. */
    method EmulateGigabytePage(virt: nat, phys: nat, write: bool, nx: bool, ghost m0: Memory, ghost p0: map<nat, Place>)
      requires virt % PageBytes(2) == 0 && phys % PageBytes(2) == 0
      requires Valid() && SameView(m0, mem, root, levels)
      requires PlacesKept(p0, places) && LinksKept(m0, mem, p0, 2)
      modifies this
      ensures Valid() && MapsRange(m0, mem, root, levels, Low(virt, levels), PageBytes(2), phys, write, nx)
      ensures PlacesKept(p0, places) && LinksKept(m0, mem, p0, 2)
      decreases 1, 1, 4
    {
      ghost var lo := Low(virt, levels);
      var i := 0;
      while i < PageBytes(2)
        invariant i <= PageBytes(2) && i % PageBytes(1) == 0
        invariant Emulated(m0, p0, lo, i, phys, write, nx)
      {
        RebuildAddress(virt, levels, 1, 2, phys, i);
        EmulatePiece(virt + i, phys, write, nx, i, lo, m0, p0);
        i := i + PageBytes(1);
      }
    }

    /** The first `i` bytes of an emulated page at `lo` are mapped. */
    ghost predicate Emulated(m0: Memory, p0: map<nat, Place>, lo: nat, i: nat, phys: nat, write: bool, nx: bool)
      reads this
    {
      && Valid() && MapsRange(m0, mem, root, levels, lo, i, phys, write, nx)
      && PlacesKept(p0, places) && LinksKept(m0, mem, p0, 2)
    }

    method EmulatePiece(virt: nat, phys: nat, write: bool, nx: bool, i: nat,
                        ghost lo: nat, ghost m0: Memory, ghost p0: map<nat, Place>)
      requires Emulated(m0, p0, lo, i, phys, write, nx) && Low(virt, levels) == lo + i
      requires virt % PageBytes(1) == 0 && (phys + i) % PageBytes(1) == 0
      modifies this
      ensures Emulated(m0, p0, lo, i + PageBytes(1), phys, write, nx)
      decreases 1, 1, 3
    {
      ghost var m, p := mem, places;
      MapPage(virt, phys + i, write, nx, 1, false);
      LinksKeptTrans(m0, p0, m, p, mem, 2);
      MapsRangeExtends(m0, m, mem, root, levels, lo, i, PageBytes(1), phys, write, nx);
    }

    method SetLeaf(t: nat, virt: nat, phys: nat, write: bool, nx: bool, size: nat,
                   ghost m0: Memory, ghost p0: map<nat, Place>)
      requires Reaches(m0, p0, mem, places, levels, root, Low(virt, levels), size, t, size) && size <= 2
      requires Low(virt, levels) % PageBytes(size) == 0 && phys % PageBytes(size) == 0
      requires Supported(gigabytePages, mem, places) && (size < 2 || gigabytePages)
      modifies this
      ensures OneEntry(mem, root, levels, Low(virt, levels), size, phys, write, nx)
      ensures Valid() && MapsRange(m0, mem, root, levels, Low(virt, levels), PageBytes(size), phys, write, nx)
      ensures PlacesKept(p0, places) && LinksKept(m0, mem, p0, size)
    {
      FinishPage(m0, p0, mem, places, levels, root, Low(virt, levels), size, t, phys, write, nx);
      IndexOfLow(virt, levels, size);
      LeafReached(mem, places, levels, root, Low(virt, levels), size, t, phys, write, nx);
      SupportedEntry(gigabytePages, mem, places, t, Index(virt, size), Leaf(size, phys, write, nx));
      mem := SetEntry(mem, t, Index(virt, size), Leaf(size, phys, write, nx));
    }

    /** `count` bytes at `virt` are mapped to `phys` with the largest pages that fit at each point.
        The result is what mapping every 4 KiB page one by one would give. */
    method MapPages(virt: nat, phys: nat, write: bool, nx: bool, count: nat) returns (ok: bool)
      requires Valid()
      modifies this
      ensures ok <==> virt % 0x1000 == 0 && phys % 0x1000 == 0 && count % 0x1000 == 0
      ensures Valid()
      ensures !ok ==> mem == old(mem)
      ensures ok ==> MapsOneByOne(old(mem), mem, root, levels, virt, phys, write, nx, count / 0x1000)
    {
      if virt % 0x1000 != 0 || phys % 0x1000 != 0 || count % 0x1000 != 0 {
        return false;
      }
      ok := true;
      var i := 0;
      ghost var n := 0;
      while i < count
        invariant i <= count && i == n * 0x1000
        invariant Valid() && MapsOneByOne(old(mem), mem, root, levels, virt, phys, write, nx, n)
      {
        var size := LargestFit(virt + i, phys + i, count - i);
        ghost var pages := PageBytes(size) / 0x1000;
        MapNext(virt, phys, write, nx, i, size, n, pages, old(mem));
        i, n := i + PageBytes(size), n + pages;
      }
      assert n == count / 0x1000;
    }

    method MapNext(virt: nat, phys: nat, write: bool, nx: bool, i: nat, size: nat, ghost n: nat, ghost pages: nat, ghost m0: Memory)
      requires Valid() && size <= 2 && pages * 0x1000 == PageBytes(size) && i == n * 0x1000
      requires (virt + i) % PageBytes(size) == 0 && (phys + i) % PageBytes(size) == 0
      requires MapsOneByOne(m0, mem, root, levels, virt, phys, write, nx, n)
      modifies this
      ensures Valid() && MapsOneByOne(m0, mem, root, levels, virt, phys, write, nx, n + pages)
    {
      ghost var m := mem;
      MapPage(virt + i, phys + i, write, nx, size, false);
      LargeStepIsManySmall(m0, m, mem, root, levels, virt, phys, write, nx, n, size, pages);
    }
  }
}
