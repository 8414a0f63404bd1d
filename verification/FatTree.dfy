/**
 * Directories made by the driver and by formatting: both meet everything that the operations on files ask of
 * a directory.
 */
module FatTree {
  import opened Basics
  import opened FatNames
  import opened FatVolume
  import opened FatData
  import opened FatEntries
  import opened FatDirectory
  import opened FatFiles

  // ----- The slots of a new directory -----

  function DotShort(): Name {
    Pad([46], 11)
  }

  function DotDotShort(): Name {
    Pad([46, 46], 11)
  }

  /** An entry for a directory at cluster `c`. */
  function DirEntry(short: Name, c: nat): (e: Slot)
    requires |short| == 11 && c < WORD
    ensures e[..11] == short && e[11] == DIR_ATTR == 0x10 && FirstCluster(e) == c && Size(e) == 0
  {
    FileFields(NewEntry(short, DIR_ATTR), c, 0);
    WithFile(NewEntry(short, DIR_ATTR), c, 0)
  }

  /** The sector that `fs_mkdir` writes to all of the new cluster. */
  function DotSector(c: nat, parent: nat): Sector
    requires c < WORD && parent < WORD
  {
    DirEntry(DotShort(), c) + DirEntry(DotDotShort(), parent) + seq(SECTOR - 64, _ => 0)
  }

  /** Slot `x` of a directory all of whose sectors are that one. */
  ghost predicate DottedAt(slots: seq<Slot>, c: nat, parent: nat, x: nat)
    requires x < |slots| && c < WORD && parent < WORD
  {
    && (x % PER_SECTOR_SLOTS == 0 ==> slots[x] == DirEntry(DotShort(), c))
    && (x % PER_SECTOR_SLOTS == 1 ==> slots[x] == DirEntry(DotDotShort(), parent))
    && (x % PER_SECTOR_SLOTS > 1 ==> slots[x][0] == 0x00)
  }

  ghost predicate Dotted(slots: seq<Slot>, c: nat, parent: nat) {
    c < WORD && parent < WORD && |slots| >= PER_SECTOR_SLOTS && forall x :: 0 <= x < |slots| ==> DottedAt(slots, c, parent, x)
  }

  lemma DotSlots(c: nat, parent: nat, j: nat)
    requires c < WORD && parent < WORD && j < PER_SECTOR_SLOTS
    ensures var e := SlotIn(DotSector(c, parent), j);
            && (j == 0 ==> e == DirEntry(DotShort(), c)) && (j == 1 ==> e == DirEntry(DotDotShort(), parent)) && (j > 1 ==> e[0] == 0x00)
  {
  }

  lemma SlotsDotted(disk: seq<Sector>, lbas: seq<nat>, c: nat, parent: nat)
    requires OnDisk(disk, lbas) && c < WORD && parent < WORD && lbas != []
    requires forall i :: 0 <= i < |lbas| ==> disk[lbas[i]] == DotSector(c, parent)
    ensures Dotted(Slots(disk, lbas), c, parent)
  {
    var slots := Slots(disk, lbas);
    forall x | 0 <= x < |slots|
      ensures DottedAt(slots, c, parent, x)
    {
      SlotsAt(disk, lbas, x / PER_SECTOR_SLOTS, x % PER_SECTOR_SLOTS);
      DotSlots(c, parent, x % PER_SECTOR_SLOTS);
    }
  }

  lemma DotNames()
    ensures CString(Listed(DotShort())) == [46] && CString(Listed(DotDotShort())) == [46, 46]
  {
    BareName([46]);
    BareName([46, 46]);
  }

  /** A name of dots, padded with blanks, is listed as itself. */
  lemma BareName(dots: Name)
    requires 0 < |dots| <= 8 && forall i :: 0 <= i < |dots| ==> dots[i] == 46
    ensures CString(Listed(Pad(dots, 11))) == dots
  {
    var short := Pad(dots, 11);
    assert forall i :: 0 <= i < 3 ==> short[8..][i] == 32;
    NoSpacesBlank(short[8..]);
    if |dots| < 8 {
      assert short[..8][|dots|] == SPACE;
    }
    IndexOfUnique(short[..8], SPACE, |dots|);
    assert Listed(short) == dots;
    IndexOfUnique(dots, 0, |dots|);
  }

  lemma {:induction false} NoSpacesBlank(s: Name)
    requires forall i :: 0 <= i < |s| ==> s[i] == SPACE
    ensures NoSpaces(s) == []
  {
    if s == [] {
    } else {
      NoSpacesBlank(s[..|s| - 1]);
    }
  }

  lemma DottedSlot(slots: seq<Slot>, c: nat, parent: nat, x: nat)
    requires Dotted(slots, c, parent) && x < |slots|
    ensures !Long(slots[x]) && slots[x][0] != DELETED && (Live(slots[x]) <==> x % PER_SECTOR_SLOTS < 2)
    ensures Live(slots[x]) ==> IsDir(slots[x]) && ShortName(slots[x]) == if x % PER_SECTOR_SLOTS == 0 then [46] else [46, 46]
  {
    DotNames();
    assert DottedAt(slots, c, parent, x);
    if x % PER_SECTOR_SLOTS == 0 {
      DotEntry(slots[x], DotShort());
    } else if x % PER_SECTOR_SLOTS == 1 {
      DotEntry(slots[x], DotDotShort());
    }
  }

  lemma DotEntry(e: Slot, short: Name)
    requires |short| == 11 && e[..11] == short && short[0] == 46 && e[11] == DIR_ATTR
    ensures Live(e) && !Long(e) && e[0] != DELETED && IsDir(e) && ShortName(e) == CString(Listed(short))
  {
    assert e[0] == e[..11][0];
  }

  /** Such a directory is in order: its entries, repeated in every sector, are found in the first one. */
  lemma DottedOrder(slots: seq<Slot>, c: nat, parent: nat)
    requires Dotted(slots, c, parent)
    ensures InOrder(slots) && Lookup(slots, [46]) == Some(0) && Lookup(slots, [46, 46]) == Some(1)
    ensures forall x :: 0 <= x < |slots| ==> !IsFile(slots[x]) && !Long(slots[x])
  {
    forall x | 0 <= x < |slots|
      ensures !Long(slots[x]) && slots[x][0] != DELETED && (Live(slots[x]) <==> x % PER_SECTOR_SLOTS < 2)
      ensures Live(slots[x]) ==> IsDir(slots[x]) && ShortName(slots[x]) == if x % PER_SECTOR_SLOTS == 0 then [46] else [46, 46]
    {
      DottedSlot(slots, c, parent, x);
    }
    AloneNoLong({}, slots, 0);
    AloneNoLong({}, slots, 1);
    assert Hits({}, slots, [46])[0] == Answers({}, slots, 0, [46]);
    assert Hits({}, slots, [46, 46])[0] == Answers({}, slots, 0, [46, 46]);
    assert Hits({}, slots, [46, 46])[1] == Answers({}, slots, 1, [46, 46]);
    FirstSkip(Ends(slots), Hits({}, slots, [46, 46]), 0, 1);
    DottedTidy(slots);
  }

  lemma DottedTidy(slots: seq<Slot>)
    requires |slots| >= 2 && Lookup(slots, [46]) == Some(0) && Lookup(slots, [46, 46]) == Some(1) && IsDir(slots[0]) && IsDir(slots[1])
    requires forall x :: 0 <= x < |slots| ==> !Long(slots[x]) && slots[x][0] != DELETED
    requires forall x :: 0 <= x < |slots| && Live(slots[x]) ==>
               IsDir(slots[x]) && (ShortName(slots[x]) == [46] || ShortName(slots[x]) == [46, 46])
    ensures InOrder(slots)
  {
    forall j | 0 <= j < |slots|
      ensures !TooLong(slots[j], LongBefore({}, slots, j))
    {
      AloneNoLong({}, slots, j);
    }
  }

  /** Without files and long names a directory is strict. */
  lemma BareStrict(slots: seq<Slot>, starts: set<nat>)
    requires forall x :: 0 <= x < |slots| ==> !IsFile(slots[x]) && !Long(slots[x])
    ensures Unambiguous(slots) && Neat(starts, slots)
  {
    forall i, k | 0 <= i && i + MARKS < k <= |slots|
      ensures !AllLong(slots, i, k)
    {
      assert !Long(slots[i]);
    }
  }

  // ----- fs_mkdir -----

  /** The name finds a directory at that cluster. */
  ghost predicate Leads(g: Geometry, m: Image, dir: nat, name: Name, c: nat) {
    var slots := DirSlots(g, m.disk, m.chains, dir);
    Lookup(slots, name).Some? && IsDir(slots[Lookup(slots, name).value]) && FirstCluster(slots[Lookup(slots, name).value]) == c
  }

  /** A directory without files that knows itself and its parent. */
  ghost predicate NewDirectory(g: Geometry, m: Image, c: nat, parent: nat) {
    && DirOk(g, m, c) && Strict(g, m, c) && (forall name :: File(g, m, c, name) == None)
    && Leads(g, m, c, [46], c) && Leads(g, m, c, [46, 46], parent)
  }

  lemma DottedDirectory(g: Geometry, m: Image, c: nat, parent: nat)
    requires c in m.chains && Dotted(DirSlots(g, m.disk, m.chains, c), c, parent)
    ensures NewDirectory(g, m, c, parent)
  {
    var slots := DirSlots(g, m.disk, m.chains, c);
    DottedOrder(slots, c, parent);
    BareStrict(slots, DirStarts(g, m.chains, c));
    assert DottedAt(slots, c, parent, 0) && DottedAt(slots, c, parent, 1);
    forall name: Name
      ensures File(g, m, c, name) == None
    {
      FoundLive(slots, name);
    }
  }

  /** The entry of a new directory is in place; what else was in its parent still is. */
  ghost predicate Entered(g: Geometry, a: Image, b: Image, dir: nat, name: Name, e: Slot, k: nat, zeros: seq<Slot>) {
    && dir in b.chains && Keeps(g, a, b, {dir}) && Lookup(DirSlots(g, a.disk, a.chains, dir), name) == None
    && Created(DirSlots(g, a.disk, a.chains, dir), DirSlots(g, b.disk, b.chains, dir), zeros, k, e)
    && e[..12] == NewEntry(Short(name), DIR_ATTR)[..12]
  }

  lemma EnteredGoesBy(e: Slot, name: Name)
    requires PlainName(name) && e[..12] == NewEntry(Short(name), DIR_ATTR)[..12]
    ensures IsDir(e) && !Long(e) && if Visible(name) then GoesBy(e, name) else e[0] == DELETED
  {
    SeenOrHidden(name, DIR_ATTR);
    SameHeader(NewEntry(Short(name), DIR_ATTR), e);
  }

  /** All files of the parent are as they were, and the name finds the new entry, if it can be seen. */
  lemma EnteredOk(g: Geometry, a: Image, b: Image, dir: nat, name: Name, e: Slot, k: nat, zeros: seq<Slot>)
    requires DirOk(g, a, dir) && PlainName(name) && Entered(g, a, b, dir, name, e, k, zeros)
    ensures DirOk(g, b, dir) && (forall n :: File(g, b, dir, n) == File(g, a, dir, n))
    ensures Lookup(DirSlots(g, b.disk, b.chains, dir), name) == if Visible(name) then Some(k) else None
  {
    var was, now := DirSlots(g, a.disk, a.chains, dir), DirSlots(g, b.disk, b.chains, dir);
    EnteredGoesBy(e, name);
    if Visible(name) {
      CreatedOk(g, a, b, dir, zeros, k, e, name);
      CreatedNames(was, now, zeros, k, e, name, name);
    } else {
      HiddenOk(g, a, b, dir, zeros, k, e);
      HiddenNames(was, now, zeros, k, e, name);
    }
    forall n: Name
      ensures File(g, b, dir, n) == File(g, a, dir, n)
    {
      EnteredFile(g, a, b, dir, name, e, k, zeros, n);
    }
  }

  lemma EnteredFile(g: Geometry, a: Image, b: Image, dir: nat, name: Name, e: Slot, k: nat, zeros: seq<Slot>, n: Name)
    requires DirOk(g, a, dir) && PlainName(name) && Entered(g, a, b, dir, name, e, k, zeros)
    ensures File(g, b, dir, n) == File(g, a, dir, n)
  {
    var was, now := DirSlots(g, a.disk, a.chains, dir), DirSlots(g, b.disk, b.chains, dir);
    EnteredGoesBy(e, name);
    if !Visible(name) {
      HiddenFile(g, a, b, dir, zeros, k, e, n);
    } else if SameName(name, n) {
      CreatedNames(was, now, zeros, k, e, name, n);
      LookupSame(was, name, n);
    } else {
      CreatedFile(g, a, b, dir, zeros, k, e, name, n);
    }
  }

  lemma EnteredStrict(g: Geometry, a: Image, fa: seq<nat>, b: Image, fb: seq<nat>, dir: nat, name: Name, e: Slot, k: nat, zeros: seq<Slot>)
    requires DirOk(g, a, dir) && Strict(g, a, dir) && PlainName(name) && Entered(g, a, b, dir, name, e, k, zeros)
    requires ImageOk(g, a, fa) && ImageOk(g, b, fb)
    ensures Strict(g, b, dir)
  {
    EnteredGoesBy(e, name);
    CreatedOnlyOne(DirSlots(g, a.disk, a.chains, dir), DirSlots(g, b.disk, b.chains, dir), zeros, k, e, name);
    CreatedNeat(g, a, fa, b, fb, dir, zeros, k, e);
  }

  /** A new cluster that is no part of any chain is taken and filled; the directory's entry is rewritten for it. */
  lemma EnteredWith(g: Geometry, a: Image, b: Image, c: Image, d: Image, e: Image, dir: nat, name: Name, was: Slot, now: Slot, k: nat,
                    zeros: seq<Slot>, cluster: nat)
    requires Entered(g, a, b, dir, name, was, k, zeros) && now[..12] == was[..12]
    requires Keeps(g, b, c, {}) && Keeps(g, c, d, {dir}) && Keeps(g, d, e, {cluster})
    requires cluster !in b.chains && dir in d.chains && dir != cluster
    requires DirSlots(g, d.disk, d.chains, dir) == DirSlots(g, c.disk, c.chains, dir)[k := now]
    ensures Entered(g, a, e, dir, name, now, k, zeros)
  {
    assert KeepsChain(g, b, c, dir) && KeepsChain(g, d, e, dir);
    SetTwice(DirSlots(g, a.disk, a.chains, dir) + zeros, k, was, now);
    forall h | h in a.chains && h !in {dir}
      ensures KeepsChain(g, a, e, h)
    {
      assert KeepsChain(g, a, b, h) && KeepsChain(g, b, c, h) && KeepsChain(g, c, d, h) && KeepsChain(g, d, e, h);
    }
  }

  /** The new cluster gets its sectors. */
  method WriteDots(v: Volume, c: nat, parent: nat)
    requires v.Valid() && c in v.chains && v.chains[c] == [c] && parent < WORD
    modifies v.disk
    ensures v.Valid() && Keeps(v.g, old(ImageOf(v)), ImageOf(v), {c}) && NewDirectory(v.g, ImageOf(v), c, parent)
  {
    ghost var a := ImageOf(v);
    ChainSectors(v.g, v.disk[..], v.fat, [c]);
    SectorsMore(v.g, [], c);
    assert [] + [c] == [c] && Sectors(v.g, [c]) == ClusterSectors(v.g, c);
    FillCluster(v, c, DotSector(c, parent));
    KeepsOthers(v.g, a, ImageOf(v), v.fat, c);
    SlotsDotted(v.disk[..], ClusterSectors(v.g, c), c, parent);
    DottedDirectory(v.g, ImageOf(v), c, parent);
  }

  /** The entry gets a cluster of its own, which becomes the directory. */
  method GiveCluster(v: Volume, dir: nat, name: Name, e: Slot, cluster: nat, offset: nat,
                     ghost a: Image, ghost at: Spot, ghost k: nat, ghost zeros: seq<Slot>) returns (ok: bool, c: nat, ghost now: Slot)
    requires v.Valid() && Entered(v.g, a, ImageOf(v), dir, name, e, k, zeros) && Place(v.g, v.chains[dir], at, cluster, offset, k)
    modifies v, v.disk
    ensures v.Valid() && v.lost == old(v.lost)
    ensures ok <==> old(v.Spare()) > 0
    ensures if ok then Housed(v.g, a, ImageOf(v), dir, name, now, k, zeros, c)
            else now == e && ImageOf(v) == old(ImageOf(v))
  {
    ghost var b := ImageOf(v);
    now := e;
    ok, c := TakeCluster(v);
    if ok {
      ReadyToFurnish(v.g, a, b, ImageOf(v), v.fat, dir, name, e, k, zeros, c, at, cluster, offset);
      now := Furnish(v, dir, name, e, cluster, offset, c, a, b, at, k, zeros);
    }
  }

  /** A free cluster, as a chain of its own. */
  method TakeCluster(v: Volume) returns (ok: bool, c: nat)
    requires v.Valid()
    modifies v, v.disk
    ensures v.Valid() && v.lost == old(v.lost) && (ok <==> old(v.Spare()) > 0) && Keeps(v.g, old(ImageOf(v)), ImageOf(v), {})
    ensures ok ==> c !in old(v.chains) && v.chains == old(v.chains)[c := [c]]
    ensures !ok ==> ImageOf(v) == old(ImageOf(v))
  {
    ghost var b, fat := ImageOf(v), v.fat;
    ok, c := v.AllocCluster();
    KeepsTables(v.g, b, ImageOf(v), fat, {});
  }

  lemma DirInRange(fat: seq<nat>, chains: Chains, dir: nat)
    requires Sound(fat, chains) && |fat| <= END_MARKS && dir in chains
    ensures dir < WORD
  {
    assert IsChain(fat, chains[dir]) && chains[dir][0] == dir;
  }

  /** The entry is in place, and the cluster is a new chain of its own. */
  ghost predicate Furnishable(g: Geometry, a: Image, b: Image, m: Image, dir: nat, name: Name, e: Slot, k: nat, zeros: seq<Slot>, c: nat,
                              at: Spot, cluster: nat, offset: nat)
  {
    && Entered(g, a, b, dir, name, e, k, zeros) && Keeps(g, b, m, {}) && dir < WORD && c < WORD
    && c !in b.chains && c in m.chains && m.chains[c] == [c] && dir in m.chains && Place(g, m.chains[dir], at, cluster, offset, k)
  }

  lemma ReadyToFurnish(g: Geometry, a: Image, b: Image, m: Image, fat: seq<nat>, dir: nat, name: Name, e: Slot, k: nat, zeros: seq<Slot>,
                       c: nat, at: Spot, cluster: nat, offset: nat)
    requires Entered(g, a, b, dir, name, e, k, zeros) && Keeps(g, b, m, {}) && c !in b.chains && m.chains == b.chains[c := [c]]
    requires Place(g, b.chains[dir], at, cluster, offset, k) && Sound(fat, m.chains) && |fat| <= END_MARKS
    ensures Furnishable(g, a, b, m, dir, name, e, k, zeros, c, at, cluster, offset)
  {
    DirInRange(fat, m.chains, dir);
    DirInRange(fat, m.chains, c);
  }

  /** The entry is told of its cluster, and the cluster gets its two entries. */
  method Furnish(v: Volume, dir: nat, name: Name, e: Slot, cluster: nat, offset: nat, c: nat,
                 ghost a: Image, ghost b: Image, ghost at: Spot, ghost k: nat, ghost zeros: seq<Slot>) returns (ghost now: Slot)
    requires v.Valid() && Furnishable(v.g, a, b, ImageOf(v), dir, name, e, k, zeros, c, at, cluster, offset)
    modifies v.disk
    ensures v.Valid() && v.lost == old(v.lost) && Housed(v.g, a, ImageOf(v), dir, name, now, k, zeros, c)
  {
    NotBefore(v.g, a, b, dir, c);
    ghost var m := ImageOf(v);
    var entry := WithFile(e, c, 0);
    FileFields(e, c, 0);
    now := entry;
    RewriteSlot(v, dir, cluster, offset, entry, at, k);
    ghost var d := ImageOf(v);
    WriteDots(v, c, dir);
    EnteredWith(v.g, a, b, m, d, ImageOf(v), dir, name, e, entry, k, zeros, c);
  }

  /** The entry is in place, and the cluster it names is a new directory. */
  ghost predicate Housed(g: Geometry, a: Image, b: Image, dir: nat, name: Name, e: Slot, k: nat, zeros: seq<Slot>, c: nat) {
    Entered(g, a, b, dir, name, e, k, zeros) && NewDirectory(g, b, c, dir) && FirstCluster(e) == c && Size(e) == 0 && c !in a.chains
  }

  lemma NotBefore(g: Geometry, a: Image, b: Image, dir: nat, c: nat)
    requires Keeps(g, a, b, {dir}) && dir in b.chains && c !in b.chains
    ensures c !in a.chains
  {
    assert c in a.chains && c != dir ==> KeepsChain(g, a, b, c);
  }

  /** Every file of the directory is as it was, and so is every chain but the directory's own. */
  ghost predicate FilesSame(g: Geometry, a: Image, b: Image, dir: nat) {
    DirOk(g, b, dir) && Keeps(g, a, b, {dir}) && forall n :: File(g, b, dir, n) == File(g, a, dir, n)
  }

  /** What the parent is like with the entry in it. */
  lemma EnteredDone(g: Geometry, a: Image, fa: seq<nat>, b: Image, fb: seq<nat>, dir: nat, name: Name, e: Slot, k: nat, zeros: seq<Slot>)
    requires DirOk(g, a, dir) && PlainName(name) && Entered(g, a, b, dir, name, e, k, zeros)
    requires ImageOk(g, a, fa) && ImageOk(g, b, fb)
    ensures FilesSame(g, a, b, dir) && (Strict(g, a, dir) ==> Strict(g, b, dir))
    ensures if Visible(name) then Leads(g, b, dir, name, FirstCluster(e))
            else Lookup(DirSlots(g, b.disk, b.chains, dir), name) == None
  {
    EnteredOk(g, a, b, dir, name, e, k, zeros);
    EnteredGoesBy(e, name);
    if Strict(g, a, dir) {
      EnteredStrict(g, a, fa, b, fb, dir, name, e, k, zeros);
    }
  }

  /** An entry for a directory under a name that is not there yet. */
  method MakeEntry(v: Volume, dir: nat, name: Name)
    returns (ok: bool, e: Slot, cluster: nat, offset: nat, ghost at: Spot, ghost k: nat, ghost zeros: seq<Slot>)
    requires v.Valid() && DirOk(v.g, ImageOf(v), dir) && Nameable(v.g, ImageOf(v), dir, name)
    modifies v, v.disk
    ensures v.Valid() && v.lost == old(v.lost)
    ensures ok <==>
              var slots := old(DirSlots(v.g, v.disk[..], v.chains, dir)); Lookup(slots, name) == None && Growth(slots) <= old(v.Spare())
    ensures !ok ==> ImageOf(v) == old(ImageOf(v))
    ensures ok ==> v.Spare() == old(v.Spare()) - Growth(old(DirSlots(v.g, v.disk[..], v.chains, dir)))
    ensures ok ==> Entered(v.g, old(ImageOf(v)), ImageOf(v), dir, name, e, k, zeros)
    ensures ok ==> Place(v.g, v.chains[dir], at, cluster, offset, k)
  {
    ghost var a := ImageOf(v);
    NeverFaults(v.g, a, dir, {}, name);
    var found, fault;
    found, e, cluster, offset, fault, at := FindEntry(v, dir, name);
    ok, k, zeros := false, 0, [];
    if found {
      return;
    }
    ok, e, cluster, offset, at, k, zeros := CreateNew(v, dir, name, DIR_ATTR);
  }

  /**
   * `fs_mkdir`, the parent having been found: exactly when the name is free and there are clusters for it, there
   * is a new directory without files, which the name finds unless it begins with the byte of a deleted entry.
   * No file of the parent changes in any case.
   */
  method MakeDirectory(v: Volume, dir: nat, name: Name) returns (ok: bool, c: nat)
    requires v.Valid() && DirOk(v.g, ImageOf(v), dir) && Nameable(v.g, ImageOf(v), dir, name)
    modifies v, v.disk
    ensures v.Valid() && v.lost == old(v.lost) && FilesSame(v.g, old(ImageOf(v)), ImageOf(v), dir)
    ensures ok <==>
              var slots := old(DirSlots(v.g, v.disk[..], v.chains, dir));
              Lookup(slots, name) == None && Growth(slots) + 1 <= old(v.Spare())
    ensures ok ==> c !in old(v.chains) && NewDirectory(v.g, ImageOf(v), c, dir)
    ensures ok ==> if Visible(name) then Leads(v.g, ImageOf(v), dir, name, c)
                   else Lookup(DirSlots(v.g, v.disk[..], v.chains, dir), name) == None
    ensures old(Strict(v.g, ImageOf(v), dir)) ==> Strict(v.g, ImageOf(v), dir)
  {
    ghost var a, fa := ImageOf(v), v.fat;
    c := 0;
    var e, cluster, offset;
    ghost var at, k, zeros, now;
    ok, e, cluster, offset, at, k, zeros := MakeEntry(v, dir, name);
    if !ok {
      assert FilesSame(v.g, a, ImageOf(v), dir);
      return;
    }
    ok, c, now := GiveCluster(v, dir, name, e, cluster, offset, a, at, k, zeros);
    EnteredDone(v.g, a, fa, ImageOf(v), v.fat, dir, name, now, k, zeros);
  }

  // ----- An empty volume -----

  lemma ZeroTables(g: Geometry, disk: seq<Sector>, fat: seq<nat>)
    requires g.Ok(|disk|) && (forall s :: 0 <= s < |disk| ==> disk[s] == seq(SECTOR, _ => 0))
    requires |fat| == g.Limit() && forall c :: 0 <= c < |fat| ==> fat[c] == 0
    ensures Mirrored(g, disk, fat) && Partitioned(fat, map[], {})
  {
    forall i | 0 <= i < g.fatCount
      ensures CopyIs(g, disk, i, fat)
    {
      forall c | 0 <= c < |fat|
        ensures EntryIs(g, disk, i, c, fat[c])
      {
        EntryOnDisk(g, |disk|, i, c);
      }
    }
  }

  lemma ZeroDirectory(g: Geometry, m: Image, dir: nat)
    requires dir in m.chains && Zeroed(DirSlots(g, m.disk, m.chains, dir))
    ensures DirOk(g, m, dir) && forall name :: File(g, m, dir, name) == None
  {
    var slots := DirSlots(g, m.disk, m.chains, dir);
    forall name: Name
      ensures File(g, m, dir, name) == None
    {
      if slots != [] {
          }
    }
  }

  lemma {:induction false} UnusedAll(fat: seq<nat>, n: nat)
    requires 2 <= n <= |fat| && forall c :: 0 <= c < |fat| ==> fat[c] == 0
    ensures |Unused(fat, n)| == n - 2
  {
    if n == 2 {
      assert Unused(fat, n) == {};
    } else {
      UnusedAll(fat, n - 1);
      assert Unused(fat, n) == Unused(fat, n - 1) + {n - 1};
    }
  }

  /** On a disk of zeros the first cluster becomes an empty directory, on which everything above works. */
  method Format(g: Geometry, sectors: nat) returns (v: Volume, root: nat)
    requires g.Ok(sectors) && g.total > 2
    ensures fresh(v) && fresh(v.disk) && v.Valid() && v.g == g && root == 2 && DirOk(v.g, ImageOf(v), root)
    ensures v.Spare() == g.total - 3 && DirSlots(v.g, v.disk[..], v.chains, root) != []
    ensures Zeroed(DirSlots(v.g, v.disk[..], v.chains, root))
    ensures forall name :: File(v.g, ImageOf(v), root, name) == None
  {
    var disk := new Sector[sectors](_ => seq(SECTOR, _ => 0));
    ghost var fat: seq<nat> := seq(g.Limit(), _ => 0);
    ZeroTables(g, disk[..], fat);
    UnusedAll(fat, g.total);
    v := new Volume(g, disk, fat, map[], {});
    var ok, c := v.AllocCluster();
    assert Next(fat, 2) == 0;
    root := c;
    ghost var lbas := Sectors(v.g, [c]);
    ChainSectors(v.g, v.disk[..], v.fat, [c]);
    SectorsCount(v.g, [c]);
    ZeroSlots(v.disk[..], lbas);
    ZeroDirectory(v.g, ImageOf(v), root);
  }

  lemma EmptyLookup(slots: seq<Slot>, name: Name)
    requires Zeroed(slots) && slots != []
    ensures Lookup(slots, name) == None && Growth(slots) == 0
  {
  }

  /** What a write to an empty directory takes. */
  lemma EmptyTakes(g: Geometry, m: Image, fat: seq<nat>, dir: nat, name: Name, data: seq<Byte>)
    requires g.spc > 0 && Sound(fat, m.chains)
    requires Zeroed(DirSlots(g, m.disk, m.chains, dir)) && DirSlots(g, m.disk, m.chains, dir) != []
    ensures CanWrite(g, m, fat, dir, name, data, false) <==> data == [] || ClustersFor(g, |data|) + 1 <= |Unused(fat, g.total)|
  {
    EmptyLookup(DirSlots(g, m.disk, m.chains, dir), name);
    NewFileRoom(g, fat, m.chains, |data|, false);
    NoneNeeded(g, |data|);
    assert [] + data == data;
  }

  /**
   * The first file on an empty volume: it is written exactly when it is empty or the clusters but the
   * directory's hold it with one to spare, and then it is read back exactly when its name can be seen.
   */
  method FirstFile(g: Geometry, sectors: nat, name: Name, data: seq<Byte>) returns (ok: bool, read: Option<seq<Byte>>)
    requires g.Ok(sectors) && g.total > 2 && PlainName(name) && Fits(g, 0, |data|)
    ensures ok <==> data == [] || ClustersFor(g, |data|) + 1 <= g.total - 3
    ensures ok ==> read == if name[0] != DELETED then Some(data) else None
  {
    var v, root := Format(g, sectors);
    EmptyTakes(v.g, ImageOf(v), v.fat, root, name, data);
    ok, read := WriteThenRead(v, root, name, data);
  }

  /** A file under the name `E5 41`: the write succeeds, and the file cannot be read. */
  method LostFile() returns (ok: bool, read: Option<seq<Byte>>)
    ensures ok && read == None
  {
    var name: Name := [DELETED, 65];
    IndexOfUnique(name, DOT, 2);
    ok, read := FirstFile(Geometry(0, 1, 1, 1, 10), 11, name, [7]);
  }
}
