/**
 * Directories of a FAT32 volume on the disk: a chain of sectors read as slots of 32 bytes. Looking a name
 * up, creating an entry in the first free slot, rewriting it in place and marking it deleted, each against
 * what it does to the sequence of slots.
 */
module FatDirectory {
  import opened Basics
  import opened FatNames
  import opened FatVolume
  import opened FatData
  import opened FatEntries
  import Arith

  const PER_SECTOR_SLOTS := 16

  // ----- Slots on the disk -----

  function SlotIn(sector: Sector, j: nat): Slot
    requires j < PER_SECTOR_SLOTS
  {
    sector[32 * j..32 * j + 32]
  }

  function SectorSlots(sector: Sector): (r: seq<Slot>)
    ensures |r| == PER_SECTOR_SLOTS
  {
    seq(PER_SECTOR_SLOTS, (j: nat) requires j < PER_SECTOR_SLOTS => SlotIn(sector, j))
  }

  function Slots(disk: seq<Sector>, lbas: seq<nat>): (r: seq<Slot>)
    requires OnDisk(disk, lbas)
    ensures |r| == PER_SECTOR_SLOTS * |lbas|
  {
    if lbas == [] then [] else Slots(disk, lbas[..|lbas| - 1]) + SectorSlots(disk[lbas[|lbas| - 1]])
  }

  /** Slot `16 * i + j` is slot `j` of sector `i`. */
  lemma {:induction false} SlotsAt(disk: seq<Sector>, lbas: seq<nat>, i: nat, j: nat)
    requires OnDisk(disk, lbas) && i < |lbas| && j < PER_SECTOR_SLOTS
    ensures Slots(disk, lbas)[PER_SECTOR_SLOTS * i + j] == SlotIn(disk[lbas[i]], j)
    decreases |lbas|
  {
    if i >= |lbas| - 1 {
    } else {
      SlotsAt(disk, lbas[..|lbas| - 1], i, j);
    }
  }

  /** The sector with one slot replaced. */
  function WithSlot(sector: Sector, j: nat, e: Slot): Sector
    requires j < PER_SECTOR_SLOTS
  {
    sector[..32 * j] + e + sector[32 * j + 32..]
  }

  lemma SlotInWith(sector: Sector, j: nat, e: Slot, i: nat)
    requires j < PER_SECTOR_SLOTS && i < PER_SECTOR_SLOTS
    ensures SlotIn(WithSlot(sector, j, e), i) == if i == j then e else SlotIn(sector, i)
  {
  }

  lemma SectorSlotsWith(sector: Sector, j: nat, e: Slot)
    requires j < PER_SECTOR_SLOTS
    ensures SectorSlots(WithSlot(sector, j, e)) == SectorSlots(sector)[j := e]
  {
    forall i | 0 <= i < PER_SECTOR_SLOTS
      ensures SlotIn(WithSlot(sector, j, e), i) == if i == j then e else SlotIn(sector, i)
    {
      SlotInWith(sector, j, e, i);
    }
  }

  lemma {:induction false} SlotsUpdate(disk: seq<Sector>, lbas: seq<nat>, i: nat, j: nat, e: Slot)
    requires OnDisk(disk, lbas) && Distinct(lbas) && i < |lbas| && j < PER_SECTOR_SLOTS
    ensures var next := disk[lbas[i] := WithSlot(disk[lbas[i]], j, e)];
            OnDisk(next, lbas) && Slots(next, lbas) == Slots(disk, lbas)[PER_SECTOR_SLOTS * i + j := e]
    decreases |lbas|
  {
    var next := disk[lbas[i] := WithSlot(disk[lbas[i]], j, e)];
    var n := |lbas| - 1;
    if i < n {
      SlotsUpdate(disk, lbas[..n], i, j, e);
    } else {
      SlotsSame(disk, next, lbas[..n]);
      SectorSlotsWith(disk[lbas[n]], j, e);
    }
  }

  /** Only the sectors themselves matter. */
  lemma {:induction false} SlotsSame(disk: seq<Sector>, other: seq<Sector>, lbas: seq<nat>)
    requires OnDisk(disk, lbas) && OnDisk(other, lbas) && forall i :: 0 <= i < |lbas| ==> other[lbas[i]] == disk[lbas[i]]
    ensures Slots(other, lbas) == Slots(disk, lbas)
  {
    if lbas == [] {
    } else {
      SlotsSame(disk, other, lbas[..|lbas| - 1]);
    }
  }

  /** The slots of the directory that starts at cluster `dir`. */
  ghost function DirSlots(g: Geometry, disk: seq<Sector>, chains: Chains, dir: nat): seq<Slot> {
    var cs := ChainAt(chains, dir);
    if Clusters(g, cs) && OnDisk(disk, Sectors(g, cs)) then Slots(disk, Sectors(g, cs)) else []
  }

  // ----- Searching the disk -----

  /**
   * How a search stands; an entry is found in slot `j` of sector `s` of what was searched. `marks` are the
   * offsets of the slots of the long name so far, which only the search to delete keeps.
   */
  datatype Outcome =
    | Going(lfn: Name, marks: seq<nat>)
    | Ended
    | Found(entry: Slot, s: nat, j: nat, marks: seq<nat>)
    | Overran

  /** What a search of part of a directory tells about the whole of it. */
  ghost predicate Tells(out: Outcome, look: Looker, cut: set<nat>, slots: seq<Slot>, from: nat, to: nat, result: Sought) {
    match out
    case Going(lfn, _) => Seek(look, cut, slots, to, lfn) == result
    case Ended => result == Absent
    case Overran => result == Overrun
    case Found(e, s, j, _) =>
      var k := from + PER_SECTOR_SLOTS * s + j;
      j < PER_SECTOR_SLOTS && k < to <= |slots| && result == Present(k) && e == slots[k]
  }

  /** The offsets, in a cluster that starts at slot `lo`, of the first slots of the long name before slot `k`. */
  ghost predicate MarksAt(slots: seq<Slot>, lo: nat, k: nat, marks: seq<nat>) {
    && lo <= k <= |slots| && |marks| == Min(k - RunStart(slots, lo, k), MARKS)
    && forall x :: 0 <= x < |marks| ==> marks[x] == 32 * (RunStart(slots, lo, k) + x - lo)
  }

  ghost predicate Remembers(out: Outcome, keep: bool, slots: seq<Slot>, lo: nat, to: nat) {
    keep ==>
      match out
      case Going(_, marks) => MarksAt(slots, lo, to, marks)
      case Found(_, s, j, marks) => MarksAt(slots, lo, lo + PER_SECTOR_SLOTS * s + j, marks)
      case _ => true
  }

  /** What is remembered after a slot at offset `off` has been passed. */
  function Remembered(e: Slot, marks: seq<nat>, off: nat): seq<nat> {
    if !Long(e) then []
    else
      var before := if Marked(e[0]) then [] else marks;
      if |before| < MARKS then before + [off] else before
  }

  lemma RememberedAt(slots: seq<Slot>, lo: nat, k: nat, marks: seq<nat>)
    requires MarksAt(slots, lo, k, marks) && k < |slots|
    ensures MarksAt(slots, lo, k + 1, Remembered(slots[k], marks, 32 * (k - lo)))
  {
  }

  /** What the body of the innermost loop of `fat_find_entry` makes of one slot, unless it overruns the buffer. */
  method LookSlot(entry: Slot, lfn: Name, name: Name, ghost look: Looker) returns (l: Look, over: bool)
    requires Seeks(look, name)
    ensures over <==> TooLong(entry, lfn)
    ensures !over ==> l == look(entry, lfn)
  {
    assert Seen(entry, lfn);
    if entry[0] == 0x00 {
      return Stop, false;
    }
    if entry[0] == DELETED {
      return Pass([]), false;
    }
    if entry[11] == LONG_ATTR {
      var part := ExtractPart(entry);
      return Pass(Prepended(if Marked(entry[0]) then [] else lfn, CString(part))), false;
    }
    if |lfn| >= NAME_BUFFER {
      return Stop, true;
    }
    var entryName := lfn;
    if lfn == [] {
      var listed := ShortToName(entry[..11]);
      entryName := CString(listed);
    }
    var same := NameEquals(entryName, name);
    return if same then Hit else Pass([]), false;
  }

  /** The long name so far is forgotten at the start of these slots and of none between them. */
  ghost predicate CutsAt(cut: set<nat>, from: nat, to: nat, lfn: Name) {
    (from in cut ==> lfn == []) && forall k :: from < k < to ==> k !in cut
  }

  lemma CutsWithin(cut: set<nat>, lo: nat, s: nat, n: nat, first: Name, lfn: Name)
    requires CutsAt(cut, lo, lo + PER_SECTOR_SLOTS * n, first) && s < n && (s == 0 ==> lfn == first)
    ensures CutsAt(cut, lo + PER_SECTOR_SLOTS * s, lo + PER_SECTOR_SLOTS * (s + 1), lfn)
  {
  }

  /** How a search stands that has come to slot `to` of a cluster whose first slot is number `lo`. */
  ghost predicate Standing(lfn: Name, marks: seq<nat>, keep: bool, look: Looker, cut: set<nat>, slots: seq<Slot>, lo: nat, to: nat,
                           result: Sought)
  {
    Seek(look, cut, slots, to, lfn) == result && (keep ==> MarksAt(slots, lo, to, marks))
  }

  /** What is known after a part of a cluster up to slot `to`. */
  ghost predicate Known(out: Outcome, keep: bool, look: Looker, cut: set<nat>, slots: seq<Slot>, lo: nat, to: nat, result: Sought) {
    Tells(out, look, cut, slots, lo, to, result) && Remembers(out, keep, slots, lo, to)
  }

  /** One slot: number `j` of sector `s` of the cluster. */
  method ScanSlot(entry: Slot, s: nat, j: nat, lfn: Name, marks: seq<nat>, keep: bool, name: Name, ghost look: Looker,
                  ghost cut: set<nat>, ghost slots: seq<Slot>, ghost lo: nat, ghost result: Sought) returns (out: Outcome)
    requires Seeks(look, name) && j < PER_SECTOR_SLOTS
    requires var k := lo + PER_SECTOR_SLOTS * s + j;
             k < |slots| && entry == slots[k] && (k in cut ==> lfn == []) && Standing(lfn, marks, keep, look, cut, slots, lo, k, result)
    ensures Known(out, keep, look, cut, slots, lo, lo + PER_SECTOR_SLOTS * s + j + 1, result)
  {
    ghost var k := lo + PER_SECTOR_SLOTS * s + j;
    assert Carried(cut, k, lfn) == lfn;
    var l, over := LookSlot(entry, lfn, name, look);
    if over {
      return Overran;
    }
    match l {
      case Stop => return Ended;
      case Hit => return Found(entry, s, j, marks);
      case Pass(next) =>
        if keep {
          RememberedAt(slots, lo, k, marks);
          return Going(next, Remembered(entry, marks, 32 * j + s * SECTOR));
        }
        return Going(next, marks);
    }
  }

  /**
   * The innermost loop of `fat_find_entry`, and of `fat_delete_entry` with `keep`, on sector `s` of a cluster
   * whose first slot is number `lo`.
   */
  method ScanSector(sector: Sector, s: nat, lfn: Name, marks: seq<nat>, keep: bool, name: Name, ghost look: Looker,
                    ghost cut: set<nat>, ghost slots: seq<Slot>, ghost lo: nat, ghost result: Sought) returns (out: Outcome)
    requires lo + PER_SECTOR_SLOTS * (s + 1) <= |slots| && Seeks(look, name)
    requires CutsAt(cut, lo + PER_SECTOR_SLOTS * s, lo + PER_SECTOR_SLOTS * (s + 1), lfn)
    requires forall j :: 0 <= j < PER_SECTOR_SLOTS ==> slots[lo + PER_SECTOR_SLOTS * s + j] == SlotIn(sector, j)
    requires Standing(lfn, marks, keep, look, cut, slots, lo, lo + PER_SECTOR_SLOTS * s, result)
    ensures Known(out, keep, look, cut, slots, lo, lo + PER_SECTOR_SLOTS * (s + 1), result)
  {
    ghost var k := lo + PER_SECTOR_SLOTS * s;
    out := Going(lfn, marks);
    for j := 0 to PER_SECTOR_SLOTS
      invariant out.Going? && (j == 0 ==> out.lfn == lfn)
      invariant Standing(out.lfn, out.marks, keep, look, cut, slots, lo, k + j, result)
    {
      var off := 32 * j;
      var entry: Slot := sector[off..off + 32];
      assert entry == SlotIn(sector, j) == slots[k + j];
      out := ScanSlot(entry, s, j, out.lfn, out.marks, keep, name, look, cut, slots, lo, result);
      if !out.Going? {
        KnownMore(out, keep, look, cut, slots, lo, k + j + 1, k + PER_SECTOR_SLOTS, result);
        return;
      }
      KnownGoing(out, keep, look, cut, slots, lo, k + j + 1, result);
    }
    StandingKnown(out, keep, look, cut, slots, lo, k + PER_SECTOR_SLOTS, result);
  }

  /** The next sector of the cluster. */
  method ScanOne(disk: array<Sector>, lba: nat, s: nat, lfn: Name, marks: seq<nat>, keep: bool, name: Name, ghost look: Looker,
                 ghost cut: set<nat>, ghost lbas: seq<nat>, ghost slots: seq<Slot>, ghost at: nat, ghost lo: nat, ghost result: Sought)
    returns (out: Outcome)
    requires OnDisk(disk[..], lbas) && slots == Slots(disk[..], lbas) && Seeks(look, name) && lo == PER_SECTOR_SLOTS * at
    requires at + s < |lbas| && lbas[at + s] == lba
    requires CutsAt(cut, lo + PER_SECTOR_SLOTS * s, lo + PER_SECTOR_SLOTS * (s + 1), lfn)
    requires Standing(lfn, marks, keep, look, cut, slots, lo, lo + PER_SECTOR_SLOTS * s, result)
    ensures Known(out, keep, look, cut, slots, lo, lo + PER_SECTOR_SLOTS * (s + 1), result)
  {
    forall j | 0 <= j < PER_SECTOR_SLOTS
      ensures slots[lo + PER_SECTOR_SLOTS * s + j] == SlotIn(disk[lba], j)
    {
      SlotsAt(disk[..], lbas, at + s, j);
    }
    out := ScanSector(disk[lba], s, lfn, marks, keep, name, look, cut, slots, lo, result);
  }

  lemma KnownGoing(out: Outcome, keep: bool, look: Looker, cut: set<nat>, slots: seq<Slot>, lo: nat, to: nat, result: Sought)
    requires Known(out, keep, look, cut, slots, lo, to, result) && out.Going?
    ensures Standing(out.lfn, out.marks, keep, look, cut, slots, lo, to, result)
  {
  }

  lemma StandingKnown(out: Outcome, keep: bool, look: Looker, cut: set<nat>, slots: seq<Slot>, lo: nat, to: nat, result: Sought)
    requires out.Going? && Standing(out.lfn, out.marks, keep, look, cut, slots, lo, to, result)
    ensures Known(out, keep, look, cut, slots, lo, to, result)
  {
  }

  /** What is known of the start of a cluster holds for the whole of it, unless the search goes on. */
  lemma KnownMore(out: Outcome, keep: bool, look: Looker, cut: set<nat>, slots: seq<Slot>, lo: nat, to: nat, end: nat, result: Sought)
    requires Known(out, keep, look, cut, slots, lo, to, result) && !out.Going? && to <= end <= |slots|
    ensures Known(out, keep, look, cut, slots, lo, end, result)
  {
    TellsMore(out, look, cut, slots, lo, to, end, result);
  }

  /** What is told of the start of a cluster holds for the whole of it, unless the search goes on. */
  lemma TellsMore(out: Outcome, look: Looker, cut: set<nat>, slots: seq<Slot>, from: nat, to: nat, end: nat, result: Sought)
    requires Tells(out, look, cut, slots, from, to, result) && !out.Going? && to <= end <= |slots|
    ensures Tells(out, look, cut, slots, from, end, result)
  {
  }

  /** Sector `s` of a cluster of `n`: what is known then, of the whole cluster unless the search goes on. */
  method ScanNext(disk: array<Sector>, lba: nat, s: nat, n: nat, lfn: Name, marks: seq<nat>, keep: bool, name: Name, ghost look: Looker,
                  ghost cut: set<nat>, ghost lbas: seq<nat>, ghost slots: seq<Slot>, ghost at: nat, ghost lo: nat, ghost first: Name,
                  ghost result: Sought) returns (out: Outcome)
    requires OnDisk(disk[..], lbas) && slots == Slots(disk[..], lbas) && Seeks(look, name) && lo == PER_SECTOR_SLOTS * at
    requires s < n && at + n <= |lbas| && lbas[at + s] == lba && CutsAt(cut, lo, lo + PER_SECTOR_SLOTS * n, first) && (s == 0 ==> lfn == first)
    requires Standing(lfn, marks, keep, look, cut, slots, lo, lo + PER_SECTOR_SLOTS * s, result)
    ensures out.Going? ==> Standing(out.lfn, out.marks, keep, look, cut, slots, lo, lo + PER_SECTOR_SLOTS * (s + 1), result)
    ensures !out.Going? ==> Known(out, keep, look, cut, slots, lo, lo + PER_SECTOR_SLOTS * n, result)
  {
    CutsWithin(cut, lo, s, n, first, lfn);
    out := ScanOne(disk, lba, s, lfn, marks, keep, name, look, cut, lbas, slots, at, lo, result);
    if out.Going? {
      KnownGoing(out, keep, look, cut, slots, lo, lo + PER_SECTOR_SLOTS * (s + 1), result);
    } else {
      KnownMore(out, keep, look, cut, slots, lo, lo + PER_SECTOR_SLOTS * (s + 1), lo + PER_SECTOR_SLOTS * n, result);
    }
  }

  lemma NthSector(g: Geometry, cluster: nat, lbas: seq<nat>, at: nat, s: nat)
    requires 2 <= cluster && at + g.spc <= |lbas| && lbas[at..at + g.spc] == ClusterSectors(g, cluster) && s < g.spc
    ensures lbas[at + s] == g.Lba(cluster) + s
  {
    assert lbas[at + s] == lbas[at..at + g.spc][s];
  }

  method ScanCluster(v: Volume, cluster: nat, lfn: Name, keep: bool, name: Name, ghost look: Looker, ghost cut: set<nat>,
                     ghost lbas: seq<nat>, ghost slots: seq<Slot>, ghost at: nat, ghost lo: nat, ghost result: Sought) returns (out: Outcome)
    requires 2 <= cluster && OnDisk(v.disk[..], lbas) && slots == Slots(v.disk[..], lbas) && Seeks(look, name)
    requires at + v.g.spc <= |lbas| && lbas[at..at + v.g.spc] == ClusterSectors(v.g, cluster) && lo == PER_SECTOR_SLOTS * at
    requires CutsAt(cut, lo, lo + PER_SECTOR_SLOTS * v.g.spc, lfn) && Standing(lfn, [], keep, look, cut, slots, lo, lo, result)
    ensures Known(out, keep, look, cut, slots, lo, lo + PER_SECTOR_SLOTS * v.g.spc, result)
  {
    var lba := v.g.Lba(cluster);
    out := Going(lfn, []);
    var s := 0;
    while s < v.g.spc
      invariant 0 <= s <= v.g.spc && out.Going? && (s == 0 ==> out.lfn == lfn)
      invariant Standing(out.lfn, out.marks, keep, look, cut, slots, lo, lo + PER_SECTOR_SLOTS * s, result)
    {
      NthSector(v.g, cluster, lbas, at, s);
      out := ScanNext(v.disk, lba + s, s, v.g.spc, out.lfn, out.marks, keep, name, look, cut, lbas, slots, at, lo, lfn, result);
      if !out.Going? {
        return;
      }
      s := s + 1;
    }
    StandingKnown(out, keep, look, cut, slots, lo, lo + PER_SECTOR_SLOTS * s, result);
  }

  /** Slot `j` of sector `s` of the `n`-th cluster of a directory. */
  datatype Spot = Spot(n: nat, s: nat, j: nat)

  /** The spot is where slot `k` of the directory is, `offset` bytes into `cluster`. */
  ghost predicate Place(g: Geometry, cs: seq<nat>, at: Spot, cluster: nat, offset: nat, k: nat) {
    && at.n < |cs| && Clusters(g, cs) && cluster == cs[at.n] && at.s < g.spc && at.j < PER_SECTOR_SLOTS
    && offset == SECTOR * at.s + 32 * at.j && k == PER_SECTOR_SLOTS * (|Sectors(g, cs[..at.n])| + at.s) + at.j
  }

  /** The slots of a directory as they are on the disk. */
  ghost predicate OnVolume(g: Geometry, disk: seq<Sector>, cs: seq<nat>, slots: seq<Slot>) {
    Clusters(g, cs) && OnDisk(disk, Sectors(g, cs)) && slots == Slots(disk, Sectors(g, cs))
  }

  /** The first slot of the `n`-th cluster. */
  ghost function StartSlot(g: Geometry, cs: seq<nat>, n: nat): nat
    requires Clusters(g, cs) && n <= |cs|
  {
    PER_SECTOR_SLOTS * |Sectors(g, cs[..n])|
  }

  method ScanNth(v: Volume, cluster: nat, lfn: Name, keep: bool, name: Name, ghost look: Looker, ghost cut: set<nat>,
                 ghost cs: seq<nat>, ghost slots: seq<Slot>, ghost n: nat, ghost result: Sought) returns (out: Outcome)
    requires OnVolume(v.g, v.disk[..], cs, slots) && n < |cs| && cluster == cs[n] && Seeks(look, name)
    requires CutsAt(cut, StartSlot(v.g, cs, n), StartSlot(v.g, cs, n + 1), lfn)
    requires Seek(look, cut, slots, StartSlot(v.g, cs, n), lfn) == result
    ensures Known(out, keep, look, cut, slots, StartSlot(v.g, cs, n), StartSlot(v.g, cs, n + 1), result)
  {
    ghost var at, lo, lbas := |Sectors(v.g, cs[..n])|, StartSlot(v.g, cs, n), Sectors(v.g, cs);
    NthCluster(v.g, cs, n, lbas, at, lo);
    assert MarksAt(slots, lo, lo, []);
    out := ScanCluster(v, cluster, lfn, keep, name, look, cut, lbas, slots, at, lo, result);
  }

  lemma NthCluster(g: Geometry, cs: seq<nat>, n: nat, lbas: seq<nat>, at: nat, lo: nat)
    requires Clusters(g, cs) && n < |cs| && lbas == Sectors(g, cs) && at == |Sectors(g, cs[..n])| && lo == StartSlot(g, cs, n)
    ensures at + g.spc <= |lbas| && lbas[at..at + g.spc] == ClusterSectors(g, cs[n]) && lo == PER_SECTOR_SLOTS * at
    ensures StartSlot(g, cs, n + 1) == lo + PER_SECTOR_SLOTS * g.spc
  {
    SectorsSplit(g, cs, n);
  }

  /** What a search that did not go on found out, in the `n`-th cluster. */
  ghost predicate Settled(g: Geometry, out: Outcome, keep: bool, look: Looker, cut: set<nat>, cs: seq<nat>, slots: seq<Slot>,
                          n: nat, cluster: nat)
  {
    && Clusters(g, cs)
    && if out.Going? then Seek(look, cut, slots, 0, []) == Absent
       else
         && n < |cs| && cluster == cs[n]
         && Known(out, keep, look, cut, slots, StartSlot(g, cs, n), StartSlot(g, cs, n + 1), Seek(look, cut, slots, 0, []))
  }

  /** A search has come to the `n`-th cluster. */
  ghost predicate Before(g: Geometry, look: Looker, cut: set<nat>, cs: seq<nat>, slots: seq<Slot>, n: nat, lfn: Name, result: Sought) {
    Clusters(g, cs) && n <= |cs| && Seek(look, cut, slots, StartSlot(g, cs, n), lfn) == result
  }

  lemma PastTheEnd(g: Geometry, disk: seq<Sector>, out: Outcome, keep: bool, look: Looker, cut: set<nat>, cs: seq<nat>, slots: seq<Slot>,
                   n: nat, cluster: nat, lfn: Name)
    requires OnVolume(g, disk, cs, slots) && n == |cs| && out.Going?
    requires Before(g, look, cut, cs, slots, n, lfn, Seek(look, cut, slots, 0, []))
    ensures Settled(g, out, keep, look, cut, cs, slots, n, cluster)
  {
    assert cs[..|cs|] == cs;
  }

  /** The outer loop of `fat_find_entry`. */
  method FindIn(v: Volume, dir: nat, name: Name, ghost look: Looker, ghost cs: seq<nat>, ghost slots: seq<Slot>)
    returns (out: Outcome, cluster: nat, ghost n: nat)
    requires Mirrored(v.g, v.disk[..], v.fat) && cs != [] && At(v.fat, cs, 0, dir)
    requires OnVolume(v.g, v.disk[..], cs, slots) && Seeks(look, name)
    ensures Settled(v.g, out, false, look, {}, cs, slots, n, cluster)
  {
    ghost var result := Seek(look, {}, slots, 0, []);
    n, cluster := 0, dir;
    out := Going([], []);
    while 2 <= cluster < END_MARKS
      invariant n <= |cs| && At(v.fat, cs, n, cluster) && out.Going? && Before(v.g, look, {}, cs, slots, n, out.lfn, result)
      decreases |cs| - n
    {
      out := ScanNth(v, cluster, out.lfn, false, name, look, {}, cs, slots, n, result);
      if !out.Going? {
        return;
      }
      cluster := Follow(v, cluster, cs, n);
      n := n + 1;
    }
    PastTheEnd(v.g, v.disk[..], out, false, look, {}, cs, slots, n, cluster, out.lfn);
  }

  /**
   * `fat_find_entry`: the entry, and where it is. The fault is the overrun of the buffer for names, by a long
   * name of 64 bytes or more before an entry that the search comes to.
   */
  method FindEntry(v: Volume, dir: nat, name: Name)
    returns (found: bool, e: Slot, cluster: nat, offset: nat, fault: bool, ghost at: Spot)
    requires v.Valid() && dir in v.chains
    ensures fault <==> Overruns({}, DirSlots(v.g, v.disk[..], v.chains, dir), name)
    ensures found <==> !fault && Lookup(DirSlots(v.g, v.disk[..], v.chains, dir), name).Some?
    ensures found ==>
              var slots := DirSlots(v.g, v.disk[..], v.chains, dir);
              var k := Lookup(slots, name).value;
              Place(v.g, v.chains[dir], at, cluster, offset, k) && e == slots[k]
  {
    SeeksFor(name);
    ghost var cs, look := v.chains[dir], LookFor(name);
    ChainSectors(v.g, v.disk[..], v.fat, cs);
    ghost var slots := Slots(v.disk[..], Sectors(v.g, cs));
    ghost var n;
    var out;
    out, cluster, n := FindIn(v, dir, name, look, cs, slots);
    Concluded(v.g, out, false, {}, cs, slots, n, cluster, name, Lookup(slots, name));
    found, e, offset, fault, at := false, seq(32, _ => 0), 0, out.Overran?, Spot(0, 0, 0);
    if out.Found? {
      found, e, offset, at := true, out.entry, 32 * out.j + out.s * SECTOR, Spot(n, out.s, out.j);
    }
  }

  /** An entry found in a cluster is in one of its sectors. */
  lemma InThatCluster(g: Geometry, cs: seq<nat>, n: nat, out: Outcome, look: Looker, cut: set<nat>, slots: seq<Slot>, result: Option<nat>)
    requires Clusters(g, cs) && n < |cs| && out.Found?
    requires Tells(out, look, cut, slots, StartSlot(g, cs, n), StartSlot(g, cs, n + 1), AsSought(result))
    ensures out.s < g.spc && result.Some? && result.value < |slots| && out.entry == slots[result.value]
    ensures result.value == StartSlot(g, cs, n) + PER_SECTOR_SLOTS * out.s + out.j
    ensures Place(g, cs, Spot(n, out.s, out.j), cs[n], 32 * out.j + out.s * SECTOR, result.value)
  {
    SectorsSplit(g, cs, n);
  }

  /** What a search has come to. */
  lemma Concluded(g: Geometry, out: Outcome, keep: bool, cut: set<nat>, cs: seq<nat>, slots: seq<Slot>, n: nat, cluster: nat, name: Name,
                  r: Option<nat>)
    requires Settled(g, out, keep, LookFor(name), cut, cs, slots, n, cluster) && r == LookupIn(cut, slots, name)
    ensures out.Overran? <==> Overruns(cut, slots, name)
    ensures out.Found? <==> !Overruns(cut, slots, name) && r.Some?
    ensures out.Found? ==> ConcludedAt(g, out, keep, cs, slots, n, cluster, r.value)
  {
    SeekExactly(cut, slots, name);
    if out.Found? {
      InThatCluster(g, cs, n, out, LookFor(name), cut, slots, r);
    }
  }

  ghost predicate ConcludedAt(g: Geometry, out: Outcome, keep: bool, cs: seq<nat>, slots: seq<Slot>, n: nat, cluster: nat, k: nat)
    requires out.Found?
  {
    && n < |cs| && Place(g, cs, Spot(n, out.s, out.j), cluster, 32 * out.j + out.s * SECTOR, k)
    && k < |slots| && out.entry == slots[k] && (keep ==> MarksAt(slots, StartSlot(g, cs, n), k, out.marks))
  }

  // ----- Searching again, to delete -----

  /** The first slots of the clusters of a directory. */
  ghost function Starts(g: Geometry, cs: seq<nat>): set<nat>
    requires Clusters(g, cs)
  {
    set n | 0 <= n <= |cs| :: StartSlot(g, cs, n)
  }

  lemma StartsApart(g: Geometry, cs: seq<nat>, n: nat)
    requires Clusters(g, cs) && n < |cs|
    ensures CutsAt(Starts(g, cs), StartSlot(g, cs, n), StartSlot(g, cs, n + 1), [])
  {
    SectorsCount(g, cs[..n]);
    SectorsCount(g, cs[..n + 1]);
    forall m | 0 <= m <= |cs|
      ensures StartSlot(g, cs, m) <= StartSlot(g, cs, n) || StartSlot(g, cs, n + 1) <= StartSlot(g, cs, m)
    {
      SectorsCount(g, cs[..m]);
      if m <= n {
        Arith.MulLe(m, n, g.spc);
      } else {
        Arith.MulLe(n + 1, m, g.spc);
      }
    }
  }

  /** The search of `fat_delete_entry`, which forgets the long name at the start of each cluster. */
  method FindAgain(v: Volume, dir: nat, name: Name, ghost look: Looker, ghost cs: seq<nat>, ghost slots: seq<Slot>)
    returns (out: Outcome, cluster: nat, ghost n: nat)
    requires Mirrored(v.g, v.disk[..], v.fat) && cs != [] && At(v.fat, cs, 0, dir)
    requires OnVolume(v.g, v.disk[..], cs, slots) && Seeks(look, name)
    ensures Settled(v.g, out, true, look, Starts(v.g, cs), cs, slots, n, cluster)
  {
    ghost var cut := Starts(v.g, cs);
    ghost var result := Seek(look, cut, slots, 0, []);
    n, cluster := 0, dir;
    out := Going([], []);
    while 2 <= cluster < END_MARKS
      invariant n <= |cs| && At(v.fat, cs, n, cluster) && out.Going? && Before(v.g, look, cut, cs, slots, n, [], result)
      decreases |cs| - n
    {
      out := ScanAfresh(v, cluster, name, look, cut, cs, slots, n, result);
      if !out.Going? {
        return;
      }
      cluster := Follow(v, cluster, cs, n);
      n := n + 1;
    }
    PastTheEnd(v.g, v.disk[..], out, true, look, cut, cs, slots, n, cluster, []);
  }

  /** The next cluster, without the long name of the one before. */
  method ScanAfresh(v: Volume, cluster: nat, name: Name, ghost look: Looker, ghost cut: set<nat>, ghost cs: seq<nat>,
                    ghost slots: seq<Slot>, ghost n: nat, ghost result: Sought) returns (out: Outcome)
    requires OnVolume(v.g, v.disk[..], cs, slots) && n < |cs| && cluster == cs[n] && Seeks(look, name) && cut == Starts(v.g, cs)
    requires Before(v.g, look, cut, cs, slots, n, [], result)
    ensures Known(out, true, look, cut, slots, StartSlot(v.g, cs, n), StartSlot(v.g, cs, n + 1), result)
    ensures out.Going? ==> Before(v.g, look, cut, cs, slots, n + 1, [], result)
  {
    StartsApart(v.g, cs, n);
    out := ScanNth(v, cluster, [], true, name, look, cut, cs, slots, n, result);
    if out.Going? {
      CutHere(look, cut, slots, StartSlot(v.g, cs, n + 1), out.lfn);
    }
  }

  lemma CutHere(look: Looker, cut: set<nat>, slots: seq<Slot>, k: nat, lfn: Name)
    requires k in cut
    ensures Seek(look, cut, slots, k, lfn) == Seek(look, cut, slots, k, [])
  {
  }

  /** The first slots of the clusters of the directory. */
  ghost function DirStarts(g: Geometry, chains: Chains, dir: nat): set<nat> {
    var cs := ChainAt(chains, dir);
    if Clusters(g, cs) then Starts(g, cs) else {}
  }

  /** What `fat_delete_entry` finds in place of what `fat_find_entry` finds. */
  ghost function LookupToDelete(g: Geometry, disk: seq<Sector>, chains: Chains, dir: nat, name: Name): Option<nat> {
    LookupIn(DirStarts(g, chains, dir), DirSlots(g, disk, chains, dir), name)
  }

  /** The search of `fat_delete_entry`, with the offsets of the slots that go with the entry. */
  method FindToDelete(v: Volume, dir: nat, name: Name)
    returns (found: bool, cluster: nat, offset: nat, marks: seq<nat>, fault: bool, ghost at: Spot)
    requires v.Valid() && dir in v.chains
    ensures fault <==> Overruns(DirStarts(v.g, v.chains, dir), DirSlots(v.g, v.disk[..], v.chains, dir), name)
    ensures found <==> !fault && LookupToDelete(v.g, v.disk[..], v.chains, dir, name).Some?
    ensures found ==>
              var k := LookupToDelete(v.g, v.disk[..], v.chains, dir, name).value;
              && Place(v.g, v.chains[dir], at, cluster, offset, k)
              && MarksAt(DirSlots(v.g, v.disk[..], v.chains, dir), StartSlot(v.g, v.chains[dir], at.n), k, marks)
  {
    ghost var cs, look := v.chains[dir], LookFor(name);
    SeeksFor(name);
    ChainSectors(v.g, v.disk[..], v.fat, cs);
    ghost var slots := Slots(v.disk[..], Sectors(v.g, cs));
    ghost var n;
    var out;
    out, cluster, n := FindAgain(v, dir, name, look, cs, slots);
    Concluded(v.g, out, true, Starts(v.g, cs), cs, slots, n, cluster, name, LookupIn(Starts(v.g, cs), slots, name));
    found, offset, marks, fault, at := false, 0, [], out.Overran?, Spot(0, 0, 0);
    if out.Found? {
      found, offset, marks, at := true, 32 * out.j + out.s * SECTOR, out.marks, Spot(n, out.s, out.j);
    }
  }

  // ----- Changing a slot in place -----

  /** One slot of the directory is written, and nothing else. */
  ghost predicate SlotWritten(g: Geometry, was: seq<Sector>, now: seq<Sector>, cs: seq<nat>, k: nat, e: Slot) {
    && |was| == |now| && Clusters(g, cs) && OnDisk(was, Sectors(g, cs)) && OnDisk(now, Sectors(g, cs))
    && k < |Slots(was, Sectors(g, cs))| && Slots(now, Sectors(g, cs)) == Slots(was, Sectors(g, cs))[k := e]
    && forall s :: 0 <= s < |was| && s !in Sectors(g, cs) ==> now[s] == was[s]
  }

  lemma OffsetParts(s: nat, j: nat)
    requires j < PER_SECTOR_SLOTS
    ensures (SECTOR * s + 32 * j) / SECTOR == s && (SECTOR * s + 32 * j) % SECTOR == 32 * j
  {
  }

  lemma SpotOnDisk(g: Geometry, cs: seq<nat>, n: nat, s: nat)
    requires n < |cs| && Clusters(g, cs) && s < g.spc
    ensures var i := |Sectors(g, cs[..n])| + s;
            i < |Sectors(g, cs)| && Sectors(g, cs)[i] == g.Lba(cs[n]) + s
  {
    SectorsSplit(g, cs, n);
    var i := |Sectors(g, cs[..n])|;
    assert Sectors(g, cs)[i + s] == Sectors(g, cs)[i..i + g.spc][s];
  }

  method WriteSlot(disk: array<Sector>, lba: nat, off: nat, e: Slot, ghost j: nat)
    requires lba < disk.Length && j < PER_SECTOR_SLOTS && off == 32 * j
    modifies disk
    ensures disk[..] == old(disk[..])[lba := WithSlot(old(disk[..])[lba], j, e)]
  {
    disk[lba] := disk[lba][..off] + e + disk[lba][off + 32..];
  }

  /** Writing one slot into its sector changes that slot of the directory and nothing else. */
  lemma SlotPut(g: Geometry, was: seq<Sector>, now: seq<Sector>, fat: seq<nat>, cs: seq<nat>, i: nat, j: nat, e: Slot)
    requires Mirrored(g, was, fat) && Clusters(g, cs) && DataSectors(g, was, Sectors(g, cs)) && OnDisk(was, Sectors(g, cs))
    requires i < |Sectors(g, cs)| && j < PER_SECTOR_SLOTS
    requires var lba := Sectors(g, cs)[i]; now == was[lba := WithSlot(was[lba], j, e)]
    ensures Mirrored(g, now, fat) && SlotWritten(g, was, now, cs, PER_SECTOR_SLOTS * i + j, e)
  {
    SlotsUpdate(was, Sectors(g, cs), i, j, e);
    OutsideTables(g, was, Sectors(g, cs)[i], now[Sectors(g, cs)[i]]);
    MirroredKept(g, was, now, fat);
  }

  lemma OutsideTables(g: Geometry, disk: seq<Sector>, lba: nat, sector: Sector)
    requires g.DataStart() <= lba < |disk|
    ensures SameTables(g, disk, disk[lba := sector])
  {
  }

  /** The sector and the offset in it of slot `k`. */
  lemma PlaceOnDisk(g: Geometry, disk: seq<Sector>, fat: seq<nat>, cs: seq<nat>, at: Spot, cluster: nat, offset: nat, k: nat, i: nat)
    requires Mirrored(g, disk, fat) && IsChain(fat, cs) && Place(g, cs, at, cluster, offset, k) && i == |Sectors(g, cs[..at.n])| + at.s
    ensures DataSectors(g, disk, Sectors(g, cs)) && OnDisk(disk, Sectors(g, cs)) && k == PER_SECTOR_SLOTS * i + at.j
    ensures i < |Sectors(g, cs)| && Sectors(g, cs)[i] == g.Lba(cluster) + offset / SECTOR && offset % SECTOR == 32 * at.j
  {
    ChainSectors(g, disk, fat, cs);
    OffsetParts(at.s, at.j);
    SpotOnDisk(g, cs, at.n, at.s);
  }

  /** `fat_update_dirent`. */
  method UpdateDirent(v: Volume, cluster: nat, offset: nat, e: Slot, ghost cs: seq<nat>, ghost at: Spot, ghost k: nat)
    requires Mirrored(v.g, v.disk[..], v.fat) && IsChain(v.fat, cs) && Place(v.g, cs, at, cluster, offset, k)
    modifies v.disk
    ensures Mirrored(v.g, v.disk[..], v.fat) && SlotWritten(v.g, old(v.disk[..]), v.disk[..], cs, k, e)
  {
    ghost var was, i := v.disk[..], |Sectors(v.g, cs[..at.n])| + at.s;
    PlaceOnDisk(v.g, was, v.fat, cs, at, cluster, offset, k, i);
    var lba := v.g.Lba(cluster) + offset / SECTOR;
    WriteSlot(v.disk, lba, offset % SECTOR, e, at.j);
    SlotPut(v.g, was, v.disk[..], v.fat, cs, i, at.j, e);
  }

  // ----- Marking slots as deleted -----

  /** The directory now has these slots, and nothing outside it has changed. */
  ghost predicate SlotsNow(g: Geometry, was: seq<Sector>, now: seq<Sector>, cs: seq<nat>, slots: seq<Slot>) {
    && |was| == |now| && Clusters(g, cs) && OnDisk(was, Sectors(g, cs)) && OnDisk(now, Sectors(g, cs))
    && Slots(now, Sectors(g, cs)) == slots
    && forall s :: 0 <= s < |was| && s !in Sectors(g, cs) ==> now[s] == was[s]
  }

  lemma SlotsNowMore(g: Geometry, was: seq<Sector>, mid: seq<Sector>, now: seq<Sector>, cs: seq<nat>, slots: seq<Slot>, k: nat, e: Slot)
    requires SlotsNow(g, was, mid, cs, slots) && SlotWritten(g, mid, now, cs, k, e)
    ensures k < |slots| && SlotsNow(g, was, now, cs, slots[k := e])
  {
  }

  lemma DeletedByte(sector: Sector, j: nat)
    requires j < PER_SECTOR_SLOTS
    ensures sector[32 * j := DELETED] == WithSlot(sector, j, AsDeleted(SlotIn(sector, j)))
  {
  }

  /** `fat_mark_deleted`. */
  method MarkDeleted(v: Volume, cluster: nat, offset: nat, ghost cs: seq<nat>, ghost at: Spot, ghost k: nat)
    requires Mirrored(v.g, v.disk[..], v.fat) && IsChain(v.fat, cs) && Place(v.g, cs, at, cluster, offset, k)
    requires Clusters(v.g, cs) && OnDisk(v.disk[..], Sectors(v.g, cs)) && k < |Slots(v.disk[..], Sectors(v.g, cs))|
    modifies v.disk
    ensures Mirrored(v.g, v.disk[..], v.fat)
    ensures SlotWritten(v.g, old(v.disk[..]), v.disk[..], cs, k, AsDeleted(old(Slots(v.disk[..], Sectors(v.g, cs)))[k]))
  {
    ghost var was, i := v.disk[..], |Sectors(v.g, cs[..at.n])| + at.s;
    PlaceOnDisk(v.g, was, v.fat, cs, at, cluster, offset, k, i);
    SlotsAt(was, Sectors(v.g, cs), i, at.j);
    var lba, off := v.g.Lba(cluster) + offset / SECTOR, offset % SECTOR;
    DeletedByte(v.disk[lba], at.j);
    v.disk[lba] := v.disk[lba][off := DELETED];
    SlotPut(v.g, was, v.disk[..], v.fat, cs, i, at.j, AsDeleted(SlotIn(was[lba], at.j)));
  }

  /** The slots from `i` to `i + n` marked as deleted. */
  ghost function ErasedTo(slots: seq<Slot>, i: nat, n: nat): (r: seq<Slot>)
    ensures |r| == |slots|
    ensures forall x :: 0 <= x < |slots| ==> r[x] == if i <= x < i + n then AsDeleted(slots[x]) else slots[x]
  {
    seq(|slots|, x requires 0 <= x < |slots| => if i <= x < i + n then AsDeleted(slots[x]) else slots[x])
  }

  /** Where a slot of the same cluster is. */
  lemma PlaceNear(g: Geometry, cs: seq<nat>, at: Spot, cluster: nat, offset: nat, k: nat, x: nat) returns (near: Spot)
    requires Place(g, cs, at, cluster, offset, k) && StartSlot(g, cs, at.n) <= x <= k
    ensures Place(g, cs, near, cluster, 32 * (x - StartSlot(g, cs, at.n)), x) && near.n == at.n
  {
    var d := x - StartSlot(g, cs, at.n);
    near := Spot(at.n, d / PER_SECTOR_SLOTS, d % PER_SECTOR_SLOTS);
  }

  /** One of the remembered slots is marked. */
  method MarkNext(v: Volume, cluster: nat, mark: nat, ghost cs: seq<nat>, ghost near: Spot, ghost x: nat,
                  ghost was: seq<Sector>, ghost slots: seq<Slot>, ghost i: nat)
    requires Mirrored(v.g, v.disk[..], v.fat) && IsChain(v.fat, cs) && Place(v.g, cs, near, cluster, mark, x)
    requires i <= x < |slots| && SlotsNow(v.g, was, v.disk[..], cs, ErasedTo(slots, i, x - i))
    modifies v.disk
    ensures Mirrored(v.g, v.disk[..], v.fat) && SlotsNow(v.g, was, v.disk[..], cs, ErasedTo(slots, i, x + 1 - i))
  {
    ghost var mid, before := v.disk[..], ErasedTo(slots, i, x - i);
    MarkDeleted(v, cluster, mark, cs, near, x);
    SlotsNowMore(v.g, was, mid, v.disk[..], cs, before, x, AsDeleted(before[x]));
    assert before[x := AsDeleted(before[x])] == ErasedTo(slots, i, x + 1 - i);
  }

  /** The end of `fat_delete_entry`: the remembered slots of the long name and the entry itself are marked. */
  method Erase(v: Volume, cluster: nat, offset: nat, marks: seq<nat>, ghost cs: seq<nat>, ghost at: Spot, ghost k: nat,
               ghost slots: seq<Slot>)
    requires Mirrored(v.g, v.disk[..], v.fat) && IsChain(v.fat, cs) && Place(v.g, cs, at, cluster, offset, k)
    requires OnVolume(v.g, v.disk[..], cs, slots) && k < |slots| && MarksAt(slots, StartSlot(v.g, cs, at.n), k, marks)
    modifies v.disk
    ensures Mirrored(v.g, v.disk[..], v.fat)
    ensures SlotsNow(v.g, old(v.disk[..]), v.disk[..], cs, Erased(slots, RunStart(slots, StartSlot(v.g, cs, at.n), k), |marks|, k))
  {
    ghost var was, lo := v.disk[..], StartSlot(v.g, cs, at.n);
    ghost var i := RunStart(slots, lo, k);
    assert ErasedTo(slots, i, 0) == slots;
    for x := 0 to |marks|
      invariant Mirrored(v.g, v.disk[..], v.fat) && SlotsNow(v.g, was, v.disk[..], cs, ErasedTo(slots, i, x))
    {
      ghost var near := PlaceNear(v.g, cs, at, cluster, offset, k, i + x);
      MarkNext(v, cluster, marks[x], cs, near, i + x, was, slots, i);
    }
    ghost var mid, before := v.disk[..], ErasedTo(slots, i, |marks|);
    MarkDeleted(v, cluster, offset, cs, at, k);
    SlotsNowMore(v.g, was, mid, v.disk[..], cs, before, k, AsDeleted(before[k]));
    assert before[k := AsDeleted(before[k])] == Erased(slots, i, |marks|, k);
  }

  // ----- Creating an entry -----

  lemma {:induction false} FirstFreeSkips(slots: seq<Slot>, k: nat, to: nat)
    requires k <= to <= |slots| && forall i :: k <= i < to ==> !Free(slots[i])
    ensures FirstFree(slots, k) == FirstFree(slots, to)
    decreases |slots| - k
  {
    if k >= to {
    } else {
      FirstFreeSkips(slots, k + 1, to);
    }
  }

  /** The innermost loop of `fat_create_entry`, when one free slot is enough. */
  method FreeInSector(sector: Sector) returns (j: nat)
    ensures j <= PER_SECTOR_SLOTS && (j < PER_SECTOR_SLOTS ==> Free(SlotIn(sector, j)))
    ensures forall i :: 0 <= i < j ==> !Free(SlotIn(sector, i))
  {
    j := 0;
    while j < PER_SECTOR_SLOTS
      invariant j <= PER_SECTOR_SLOTS && forall i :: 0 <= i < j ==> !Free(SlotIn(sector, i))
    {
      var first := sector[32 * j];
      assert SlotIn(sector, j)[0] == first;
      if first == 0x00 || first == DELETED {
        return;
      }
      j := j + 1;
    }
  }

  /** The next sector of the directory is number `i` of it. */
  method FreeInOne(disk: array<Sector>, lba: nat, ghost lbas: seq<nat>, ghost slots: seq<Slot>, ghost i: nat) returns (j: nat)
    requires OnDisk(disk[..], lbas) && slots == Slots(disk[..], lbas) && i < |lbas| && lbas[i] == lba
    ensures j <= PER_SECTOR_SLOTS
    ensures FirstFree(slots, PER_SECTOR_SLOTS * i) ==
            if j < PER_SECTOR_SLOTS then PER_SECTOR_SLOTS * i + j else FirstFree(slots, PER_SECTOR_SLOTS * (i + 1))
  {
    j := FreeInSector(disk[lba]);
    ghost var k := PER_SECTOR_SLOTS * i;
    forall l | 0 <= l < PER_SECTOR_SLOTS
      ensures slots[k + l] == SlotIn(disk[lba], l)
    {
      SlotsAt(disk[..], lbas, i, l);
    }
    forall l | k <= l < k + j
      ensures !Free(slots[l])
    {
      assert slots[k + (l - k)] == SlotIn(disk[lba], l - k);
    }
    FirstFreeSkips(slots, k, k + j);
  }

  method FreeInCluster(v: Volume, cluster: nat, ghost lbas: seq<nat>, ghost slots: seq<Slot>, ghost at: nat)
    returns (found: bool, s: nat, j: nat)
    requires 2 <= cluster && OnDisk(v.disk[..], lbas) && slots == Slots(v.disk[..], lbas)
    requires at + v.g.spc <= |lbas| && lbas[at..at + v.g.spc] == ClusterSectors(v.g, cluster)
    ensures found ==> s < v.g.spc && j < PER_SECTOR_SLOTS
    ensures FirstFree(slots, PER_SECTOR_SLOTS * at) ==
            if found then PER_SECTOR_SLOTS * (at + s) + j else FirstFree(slots, PER_SECTOR_SLOTS * (at + v.g.spc))
  {
    var lba := v.g.Lba(cluster);
    s, j := 0, 0;
    while s < v.g.spc
      invariant s <= v.g.spc
      invariant FirstFree(slots, PER_SECTOR_SLOTS * at) == FirstFree(slots, PER_SECTOR_SLOTS * (at + s))
    {
      assert lbas[at + s] == lbas[at..at + v.g.spc][s] == lba + s;
      j := FreeInOne(v.disk, lba + s, lbas, slots, at + s);
      if j < PER_SECTOR_SLOTS {
        return true, s, j;
      }
      s := s + 1;
    }
    return false, s, j;
  }

  method FreeInNth(v: Volume, cluster: nat, ghost cs: seq<nat>, ghost slots: seq<Slot>, ghost n: nat, ghost at: nat)
    returns (found: bool, s: nat, j: nat)
    requires Clusters(v.g, cs) && OnDisk(v.disk[..], Sectors(v.g, cs)) && slots == Slots(v.disk[..], Sectors(v.g, cs))
    requires n < |cs| && cluster == cs[n] && at == |Sectors(v.g, cs[..n])|
    ensures |Sectors(v.g, cs[..n + 1])| == at + v.g.spc && PER_SECTOR_SLOTS * (at + v.g.spc) <= |slots|
    ensures found ==> s < v.g.spc && j < PER_SECTOR_SLOTS
    ensures found ==> FirstFree(slots, PER_SECTOR_SLOTS * at) == PER_SECTOR_SLOTS * (at + s) + j < |slots|
    ensures !found ==> FirstFree(slots, PER_SECTOR_SLOTS * at) == FirstFree(slots, PER_SECTOR_SLOTS * (at + v.g.spc))
    ensures !found && n == |cs| - 1 ==> FirstFree(slots, PER_SECTOR_SLOTS * at) == |slots|
  {
    SectorsSplit(v.g, cs, n);
    found, s, j := FreeInCluster(v, cluster, Sectors(v.g, cs), slots, at);
    assert n == |cs| - 1 ==> cs[..n + 1] == cs;
  }

  /** The search of `fat_create_entry`: the first free slot, or the last cluster when there is none. */
  method FindFree(v: Volume, dir: nat, ghost cs: seq<nat>, ghost slots: seq<Slot>)
    returns (found: bool, cluster: nat, offset: nat, ghost at: Spot)
    requires Mirrored(v.g, v.disk[..], v.fat) && IsChain(v.fat, cs) && dir == cs[0]
    requires Clusters(v.g, cs) && OnDisk(v.disk[..], Sectors(v.g, cs)) && slots == Slots(v.disk[..], Sectors(v.g, cs))
    ensures found ==> FirstFree(slots, 0) < |slots| && Place(v.g, cs, at, cluster, offset, FirstFree(slots, 0))
    ensures !found ==> FirstFree(slots, 0) == |slots| && cluster == cs[|cs| - 1]
  {
    ghost var n, base := 0, 0;
    cluster, offset, at := dir, 0, Spot(0, 0, 0);
    while true
      invariant 0 <= n < |cs| && cluster == cs[n] && base == |Sectors(v.g, cs[..n])| && PER_SECTOR_SLOTS * base <= |slots|
      invariant FirstFree(slots, 0) == FirstFree(slots, PER_SECTOR_SLOTS * base)
      decreases |cs| - n
    {
      var s, j;
      found, s, j := FreeInNth(v, cluster, cs, slots, n, base);
      if found {
        offset, at := 32 * j + s * SECTOR, Spot(n, s, j);
        return;
      }
      assert n < |cs| - 1 ==> Next(v.fat, cs[n]) == cs[n + 1];
      var next := v.GetEntry(cluster);
      if next >= END_MARKS {
        return;
      }
      cluster, n, base := next, n + 1, base + v.g.spc;
    }
  }

  /** Outside the tables, only these sectors differ. */
  ghost predicate OnlyIn(g: Geometry, was: seq<Sector>, now: seq<Sector>, lbas: seq<nat>) {
    && |was| == |now|
    && forall s :: 0 <= s < |was| && !(g.fatStart <= s < g.DataStart()) && s !in lbas ==> now[s] == was[s]
  }

  lemma AppendSlots(a: seq<Slot>, b: seq<Slot>, c: seq<Slot>)
    ensures (a + b) + c == a + (b + c)
  {
  }

  lemma {:induction false} SlotsJoined(disk: seq<Sector>, a: seq<nat>, b: seq<nat>)
    requires OnDisk(disk, a) && OnDisk(disk, b)
    ensures OnDisk(disk, a + b) && Slots(disk, a + b) == Slots(disk, a) + Slots(disk, b)
    decreases |b|
  {
    if b == [] {
      assert a + b == a;
      assert Slots(disk, a) + [] == Slots(disk, a);
    } else {
      var n := |b| - 1;
      SlotsJoined(disk, a, b[..n]);
      var all := a + b;
      assert all[..|all| - 1] == a + b[..n] && all[|all| - 1] == b[n];
      assert Slots(disk, all) == Slots(disk, a + b[..n]) + SectorSlots(disk[b[n]]);
      AppendSlots(Slots(disk, a), Slots(disk, b[..n]), SectorSlots(disk[b[n]]));
    }
  }

  lemma {:induction false} ZeroSlots(disk: seq<Sector>, lbas: seq<nat>)
    requires OnDisk(disk, lbas) && forall i :: 0 <= i < |lbas| ==> disk[lbas[i]] == seq(SECTOR, _ => 0)
    ensures Zeroed(Slots(disk, lbas))
  {
    if lbas == [] {
    } else {
      ZeroSlots(disk, lbas[..|lbas| - 1]);
    }
  }

  lemma ClusterInRange(g: Geometry, c: nat, sectors: nat)
    requires g.Ok(sectors) && 2 <= c < g.Limit()
    ensures forall i :: 0 <= i < g.spc ==> g.DataStart() <= ClusterSectors(g, c)[i] < sectors
  {
    ClustersApart(g, c, g.Limit());
  }

  /** Every sector of a cluster is written with the same bytes. */
  method FillCluster(v: Volume, c: nat, sector: Sector)
    requires Mirrored(v.g, v.disk[..], v.fat) && 2 <= c < v.g.Limit()
    modifies v.disk
    ensures Mirrored(v.g, v.disk[..], v.fat) && OnlyIn(v.g, old(v.disk[..]), v.disk[..], ClusterSectors(v.g, c))
    ensures OnDisk(v.disk[..], ClusterSectors(v.g, c))
    ensures forall i :: 0 <= i < v.g.spc ==> v.disk[..][ClusterSectors(v.g, c)[i]] == sector
  {
    ghost var was, lbas := v.disk[..], ClusterSectors(v.g, c);
    ClusterInRange(v.g, c, v.disk.Length);
    var lba := v.g.Lba(c);
    for s := 0 to v.g.spc
      invariant forall i :: 0 <= i < s ==> v.disk[lbas[i]] == sector
      invariant SameTables(v.g, was, v.disk[..]) && OnlyIn(v.g, was, v.disk[..], lbas)
    {
      assert lbas[s] == lba + s;
      v.disk[lba + s] := sector;
    }
    MirroredKept(v.g, was, v.disk[..], v.fat);
  }

  method ZeroCluster(v: Volume, c: nat)
    requires Mirrored(v.g, v.disk[..], v.fat) && 2 <= c < v.g.Limit()
    modifies v.disk
    ensures Mirrored(v.g, v.disk[..], v.fat) && OnlyIn(v.g, old(v.disk[..]), v.disk[..], ClusterSectors(v.g, c))
    ensures OnDisk(v.disk[..], ClusterSectors(v.g, c)) && Zeroed(Slots(v.disk[..], ClusterSectors(v.g, c)))
  {
    FillCluster(v, c, seq(SECTOR, _ => 0));
    ZeroSlots(v.disk[..], ClusterSectors(v.g, c));
  }

  /** A directory with no free slot gets one more cluster, all zeros. */
  ghost predicate DirGrown(g: Geometry, was: seq<Sector>, now: seq<Sector>, cs: seq<nat>, c: nat) {
    && 2 <= c < g.Limit() && Clusters(g, cs) && Clusters(g, cs + [c])
    && OnDisk(was, Sectors(g, cs)) && OnDisk(now, Sectors(g, cs + [c])) && OnDisk(now, ClusterSectors(g, c))
    && Slots(now, Sectors(g, cs + [c])) == Slots(was, Sectors(g, cs)) + Slots(now, ClusterSectors(g, c))
    && Zeroed(Slots(now, ClusterSectors(g, c))) && OnlyIn(g, was, now, ClusterSectors(g, c))
  }

  lemma GrownSlots(g: Geometry, was: seq<Sector>, mid: seq<Sector>, now: seq<Sector>, fat: seq<nat>, cs: seq<nat>, c: nat)
    requires g.Ok(|was|) && |fat| == g.Limit() && IsChain(fat, cs + [c]) && |fat| <= END_MARKS && Clusters(g, cs)
    requires SameData(g, was, mid) && OnlyIn(g, mid, now, ClusterSectors(g, c))
    requires OnDisk(now, ClusterSectors(g, c)) && Zeroed(Slots(now, ClusterSectors(g, c)))
    ensures DirGrown(g, was, now, cs, c)
  {
    assert (cs + [c])[|cs|] == c;
    SectorsMore(g, cs, c);
    SectorsMore(g, [], c);
    assert [] + [c] == [c] && Sectors(g, [c]) == ClusterSectors(g, c);
    forall i | 0 <= i < |cs|
      ensures cs[i] != c
    {
      ChainDistinct(fat, cs + [c], i, |cs|);
      assert (cs + [c])[i] == cs[i];
    }
    var a := Sectors(g, cs);
    forall i | 0 <= i < |a|
      ensures g.DataStart() <= a[i] < |was| && now[a[i]] == was[a[i]]
    {
      SectorInRange(g, cs, i, |was|);
      forall j | 0 <= j < g.spc
        ensures a[i] != ClusterSectors(g, c)[j]
      {
        SectorsApart(g, cs, [c], i, j);
      }
    }
    SlotsSame(was, now, a);
    SlotsJoined(now, a, ClusterSectors(g, c));
  }

  /** The clusters appended to a full directory by `fat_create_entry`. */
  method GrowDirectory(v: Volume, dir: nat, last: nat) returns (ok: bool, c: nat)
    requires v.Valid() && dir in v.chains && last == v.chains[dir][|v.chains[dir]| - 1]
    modifies v, v.disk
    ensures v.Valid() && v.lost == old(v.lost) && (ok <==> old(v.Spare()) > 0)
    ensures ok ==> v.Spare() == old(v.Spare()) - 1
    ensures !ok ==> Untouched(old(v.disk[..]), old(v.chains), v.disk[..], v.chains)
    ensures ok ==> v.chains == old(v.chains)[dir := old(v.chains)[dir] + [c]]
    ensures ok ==> DirGrown(v.g, old(v.disk[..]), v.disk[..], old(v.chains)[dir], c)
  {
    ghost var was, cs := v.disk[..], v.chains[dir];
    ok, c := Lengthen(v, dir, last);
    if ok {
      ghost var mid := v.disk[..];
      assert v.chains[dir] == cs + [c] && (cs + [c])[|cs|] == c;
      ZeroCluster(v, c);
      GrownSlots(v.g, was, mid, v.disk[..], v.fat, cs, c);
    }
  }

  /** The directory's chain gets one more cluster. */
  method Lengthen(v: Volume, dir: nat, last: nat) returns (ok: bool, c: nat)
    requires v.Valid() && dir in v.chains && last == v.chains[dir][|v.chains[dir]| - 1]
    modifies v, v.disk
    ensures v.Valid() && v.lost == old(v.lost) && SameData(v.g, old(v.disk[..]), v.disk[..])
    ensures (ok <==> old(v.Spare()) > 0) && (ok ==> v.Spare() == old(v.Spare()) - 1)
    ensures !ok ==> Untouched(old(v.disk[..]), old(v.chains), v.disk[..], v.chains)
    ensures ok ==> v.chains == old(v.chains)[dir := old(v.chains)[dir] + [c]]
  {
    ghost var cs := v.chains[dir];
    ok, c := ExtendChain(v, last, dir);
    if ok {
      assert (cs + [c])[|cs|] == c;
      MarkEnd(v, c, dir);
    }
  }

  /** A new entry in the first free slot, after the directory was made longer if it was full. */
  ghost predicate Created(was: seq<Slot>, now: seq<Slot>, zeros: seq<Slot>, k: nat, e: Slot) {
    && k == FirstFree(was, 0) && Zeroed(zeros) && (k < |was| ==> zeros == [])
    && k < |was + zeros| && now == (was + zeros)[k := e]
  }

  lemma SlotWrittenOnly(g: Geometry, was: seq<Sector>, now: seq<Sector>, cs: seq<nat>, k: nat, e: Slot)
    requires SlotWritten(g, was, now, cs, k, e)
    ensures OnlyIn(g, was, now, Sectors(g, cs))
  {
  }

  lemma OnlyInBoth(g: Geometry, a: seq<Sector>, b: seq<Sector>, c: seq<Sector>, cs: seq<nat>, d: nat)
    requires Clusters(g, cs) && 2 <= d < g.Limit() && Clusters(g, cs + [d])
    requires OnlyIn(g, a, b, ClusterSectors(g, d)) && OnlyIn(g, b, c, Sectors(g, cs + [d]))
    ensures OnlyIn(g, a, c, Sectors(g, cs + [d]))
  {
    SectorsMore(g, cs, d);
  }

  /** The new entry goes to a free slot that is already there. */
  method FillFree(v: Volume, dir: nat, e: Slot) returns (found: bool, cluster: nat, offset: nat, ghost at: Spot, ghost k: nat)
    requires v.Valid() && dir in v.chains
    modifies v.disk
    ensures v.Valid()
    ensures found <==> FirstFree(old(DirSlots(v.g, v.disk[..], v.chains, dir)), 0) < |old(DirSlots(v.g, v.disk[..], v.chains, dir))|
    ensures found ==> Place(v.g, v.chains[dir], at, cluster, offset, k)
    ensures found ==> SlotWritten(v.g, old(v.disk[..]), v.disk[..], v.chains[dir], k, e)
    ensures found ==> k == FirstFree(old(DirSlots(v.g, v.disk[..], v.chains, dir)), 0)
    ensures !found ==> cluster == v.chains[dir][|v.chains[dir]| - 1] && v.disk[..] == old(v.disk[..])
  {
    ghost var cs := v.chains[dir];
    ChainSectors(v.g, v.disk[..], v.fat, cs);
    ghost var slots := Slots(v.disk[..], Sectors(v.g, cs));
    found, cluster, offset, at := FindFree(v, dir, cs, slots);
    k := FirstFree(slots, 0);
    if found {
      UpdateDirent(v, cluster, offset, e, cs, at, k);
    }
  }

  /** The short form, and whether slots for the long one are needed beside it: for an 8.3 name they are not. */
  method ShortForm(name: Name) returns (short: Name, needsLong: bool)
    ensures short == Short(name) && (needsLong <==> !Is83(name))
  {
    short := NameToShort(name);
    var listed := ShortToName(short);
    var same := NameEquals(listed, name);
    needsLong := !same;
    ShortRoundTrip(name);
  }

  /** The clusters that a new entry takes: one when the directory is full. */
  ghost function Growth(slots: seq<Slot>): nat {
    if FirstFree(slots, 0) == |slots| then 1 else 0
  }

  /** `fat_create_entry` for a name that needs no long form. */
  method CreateEntry(v: Volume, dir: nat, name: Name, attr: Byte)
    returns (ok: bool, e: Slot, cluster: nat, offset: nat, ghost at: Spot, ghost k: nat, ghost zeros: seq<Slot>)
    requires v.Valid() && dir in v.chains && Is83(name)
    modifies v, v.disk
    ensures v.Valid() && v.lost == old(v.lost) && dir in v.chains && OthersKept(old(v.chains), v.chains, dir)
    ensures ok <==> Growth(old(DirSlots(v.g, v.disk[..], v.chains, dir))) <= old(v.Spare())
    ensures ok ==> v.Spare() == old(v.Spare()) - Growth(old(DirSlots(v.g, v.disk[..], v.chains, dir)))
    ensures Clusters(v.g, v.chains[dir]) && OnlyIn(v.g, old(v.disk[..]), v.disk[..], Sectors(v.g, v.chains[dir]))
    ensures !ok ==> Untouched(old(v.disk[..]), old(v.chains), v.disk[..], v.chains)
    ensures ok ==> e == NewEntry(Short(name), attr) && Place(v.g, v.chains[dir], at, cluster, offset, k)
    ensures ok ==> Created(old(DirSlots(v.g, v.disk[..], v.chains, dir)), DirSlots(v.g, v.disk[..], v.chains, dir), zeros, k, e)
  {
    var short, needsLong := ShortForm(name);
    e := NewEntry(short, attr);
    ghost var was, cs := v.disk[..], v.chains[dir];
    ChainSectors(v.g, was, v.fat, cs);
    ok, cluster, offset, at, k := FillFree(v, dir, e);
    if ok {
      zeros := [];
      SlotWrittenOnly(v.g, was, v.disk[..], cs, k, e);
      assert Slots(was, Sectors(v.g, cs)) + [] == Slots(was, Sectors(v.g, cs));
    } else {
      ok, cluster, offset, at, k, zeros := CreateAtEnd(v, dir, e, cluster, was, cs, Slots(was, Sectors(v.g, cs)));
    }
  }

  lemma KeptButOne(chains: Chains, h: nat, cs: seq<nat>)
    requires h in chains
    ensures OthersKept(chains, chains[h := cs], h) && OthersKept(chains, chains, h)
  {
  }

  /** The case of a directory without a free slot. */
  method CreateAtEnd(v: Volume, dir: nat, e: Slot, last: nat, ghost was: seq<Sector>, ghost cs: seq<nat>, ghost slots: seq<Slot>)
    returns (ok: bool, cluster: nat, offset: nat, ghost at: Spot, ghost k: nat, ghost zeros: seq<Slot>)
    requires v.Valid() && dir in v.chains && v.chains[dir] == cs && last == cs[|cs| - 1] && was == v.disk[..]
    requires Clusters(v.g, cs) && OnDisk(was, Sectors(v.g, cs)) && slots == Slots(was, Sectors(v.g, cs))
    requires FirstFree(slots, 0) == |slots|
    modifies v, v.disk
    ensures v.Valid() && v.lost == old(v.lost) && dir in v.chains && OthersKept(old(v.chains), v.chains, dir)
    ensures (ok <==> old(v.Spare()) > 0) && (ok ==> v.Spare() == old(v.Spare()) - 1)
    ensures Clusters(v.g, v.chains[dir]) && OnlyIn(v.g, was, v.disk[..], Sectors(v.g, v.chains[dir]))
    ensures !ok ==> Untouched(was, old(v.chains), v.disk[..], v.chains)
    ensures ok ==> Place(v.g, v.chains[dir], at, cluster, offset, k)
    ensures ok ==> Created(slots, DirSlots(v.g, v.disk[..], v.chains, dir), zeros, k, e)
  {
    var c;
    ok, c := GrowDirectory(v, dir, last);
    cluster, offset, at, k, zeros := 0, 0, Spot(0, 0, 0), 0, [];
    KeptButOne(old(v.chains), dir, cs);
    if ok {
      KeptButOne(old(v.chains), dir, cs + [c]);
      zeros := Slots(v.disk[..], ClusterSectors(v.g, c));
      assert v.chains[dir] == cs + [c];
      ok, cluster, offset, at, k := FillNew(v, dir, e, was, cs, c, zeros);
    }
  }

  /**
   * The second attempt finds the first slot of the cluster just added. The search starts at the front
   * of the directory here; the cluster added is the only part of it with a free slot.
   */
  method FillNew(v: Volume, dir: nat, e: Slot, ghost was: seq<Sector>, ghost cs: seq<nat>, ghost c: nat, ghost zeros: seq<Slot>)
    returns (ok: bool, cluster: nat, offset: nat, ghost at: Spot, ghost k: nat)
    requires v.Valid() && dir in v.chains && v.chains[dir] == cs + [c] && DirGrown(v.g, was, v.disk[..], cs, c)
    requires zeros == Slots(v.disk[..], ClusterSectors(v.g, c)) && v.g.spc > 0
    requires FirstFree(Slots(was, Sectors(v.g, cs)), 0) == |Slots(was, Sectors(v.g, cs))|
    modifies v.disk
    ensures v.Valid() && ok && Place(v.g, v.chains[dir], at, cluster, offset, k)
    ensures OnlyIn(v.g, was, v.disk[..], Sectors(v.g, cs + [c]))
    ensures Created(Slots(was, Sectors(v.g, cs)), DirSlots(v.g, v.disk[..], v.chains, dir), zeros, k, e)
  {
    ghost var mid, old' := v.disk[..], Slots(was, Sectors(v.g, cs));
    FirstFreeSkips(old' + zeros, 0, |old'|);
    ok, cluster, offset, at, k := FillFree(v, dir, e);
    SlotWrittenOnly(v.g, mid, v.disk[..], cs + [c], k, e);
    OnlyInBoth(v.g, was, mid, v.disk[..], cs, c);
  }
}
