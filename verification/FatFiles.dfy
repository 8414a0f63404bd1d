/**
 * Files in a directory of a FAT32 volume: reading, writing, appending and deleting by name. What a
 * write stores is what the next read returns, and every other file on the volume keeps its contents.
 */
module FatFiles {
  import opened Basics
  import opened FatNames
  import opened FatVolume
  import opened FatData
  import opened FatEntries
  import opened FatDirectory
  import Arith

  // ----- What is kept -----

  /** The disk and the chains on it. */
  datatype Image = Image(disk: seq<Sector>, chains: Chains)

  /** Every chain but these is the same and holds the same. */
  ghost predicate Keeps(g: Geometry, a: Image, b: Image, except: set<nat>) {
    forall h :: h in a.chains && h !in except ==> KeepsChain(g, a, b, h)
  }

  ghost predicate KeepsChain(g: Geometry, a: Image, b: Image, h: nat) {
    && h in a.chains && h in b.chains && b.chains[h] == a.chains[h]
    && Contents(g, b.disk, b.chains, h) == Contents(g, a.disk, a.chains, h)
    && DirSlots(g, b.disk, b.chains, h) == DirSlots(g, a.disk, a.chains, h)
  }

  lemma KeepsBoth(g: Geometry, a: Image, b: Image, c: Image, except: set<nat>, more: set<nat>)
    requires Keeps(g, a, b, except) && Keeps(g, b, c, more)
    ensures Keeps(g, a, c, except + more)
  {
    forall h | h in a.chains && h !in except + more
      ensures KeepsChain(g, a, c, h)
    {
      assert KeepsChain(g, a, b, h) && KeepsChain(g, b, c, h);
    }
  }

  lemma KeepsMore(g: Geometry, a: Image, b: Image, c: Image, dir: nat, start: nat)
    requires Keeps(g, a, b, {dir}) && (Keeps(g, b, c, {start}) || Keeps(g, b, c, {dir, start}))
    ensures Keeps(g, a, c, {dir, start})
  {
    forall h | h in a.chains && h !in {dir, start}
      ensures KeepsChain(g, a, c, h)
    {
      assert KeepsChain(g, a, b, h) && KeepsChain(g, b, c, h);
    }
  }

  /** A chain whose sectors do not change keeps what it holds. */
  lemma KeepsSectors(g: Geometry, a: Image, b: Image, fat: seq<nat>, h: nat)
    requires g.Ok(|a.disk|) && |fat| == g.Limit() && |b.disk| == |a.disk|
    requires h in a.chains && IsChain(fat, a.chains[h]) && h in b.chains && b.chains[h] == a.chains[h]
    requires Clusters(g, a.chains[h]) ==> forall i :: 0 <= i < |Sectors(g, a.chains[h])| && Sectors(g, a.chains[h])[i] < |a.disk| ==>
               b.disk[Sectors(g, a.chains[h])[i]] == a.disk[Sectors(g, a.chains[h])[i]]
    ensures KeepsChain(g, a, b, h)
  {
    var cs := a.chains[h];
    ChainClusters(g, fat, cs, |a.disk|);
    var lbas := Sectors(g, cs);
    BytesSame(a.disk, b.disk, lbas);
    SlotsSame(a.disk, b.disk, lbas);
  }

  /** Changing only the tables changes no data. */
  lemma KeepsTables(g: Geometry, a: Image, b: Image, fat: seq<nat>, except: set<nat>)
    requires g.Ok(|a.disk|) && |fat| == g.Limit() && Sound(fat, a.chains) && SameData(g, a.disk, b.disk)
    requires forall h :: h in a.chains && h !in except ==> h in b.chains && b.chains[h] == a.chains[h]
    ensures Keeps(g, a, b, except)
  {
    forall h | h in a.chains && h !in except
      ensures KeepsChain(g, a, b, h)
    {
      ChainClusters(g, fat, a.chains[h], |a.disk|);
      KeepsSectors(g, a, b, fat, h);
    }
  }

  /** Changing only the sectors of one chain changes no other. */
  lemma KeepsOthers(g: Geometry, a: Image, b: Image, fat: seq<nat>, d: nat)
    requires g.Ok(|a.disk|) && |fat| == g.Limit() && Sound(fat, b.chains) && d in b.chains
    requires Clusters(g, b.chains[d]) && OnlyIn(g, a.disk, b.disk, Sectors(g, b.chains[d]))
    requires forall h :: h in a.chains && h != d ==> h in b.chains && b.chains[h] == a.chains[h]
    ensures Keeps(g, a, b, {d})
  {
    forall h | h in a.chains && h !in {d}
      ensures KeepsChain(g, a, b, h)
    {
      var cs := a.chains[h];
      ChainClusters(g, fat, cs, |a.disk|);
      assert Apart(cs, b.chains[d]);
      var lbas := Sectors(g, cs);
      forall i | 0 <= i < |lbas|
        ensures lbas[i] !in Sectors(g, b.chains[d])
      {
        forall j | 0 <= j < |Sectors(g, b.chains[d])|
          ensures lbas[i] != Sectors(g, b.chains[d])[j]
        {
          SectorsApart(g, cs, b.chains[d], i, j);
        }
      }
      KeepsSectors(g, a, b, fat, h);
    }
  }

  // ----- Files -----

  /** An entry that names a file. */
  ghost predicate IsFile(e: Slot) {
    Live(e) && !IsDir(e)
  }

  /** An empty file has no chain; any other has one of its own, long enough for its size. */
  ghost predicate EntryOk(g: Geometry, m: Image, dir: nat, e: Slot) {
    var c := FirstCluster(e);
    if c == 0 then Size(e) == 0 else c in m.chains && c != dir && Size(e) <= |Contents(g, m.disk, m.chains, c)|
  }

  ghost predicate FilesOk(g: Geometry, m: Image, dir: nat, slots: seq<Slot>) {
    && (forall k :: 0 <= k < |slots| && IsFile(slots[k]) ==> EntryOk(g, m, dir, slots[k]))
    && (forall j, k :: 0 <= j < |slots| && 0 <= k < |slots| && j != k && IsFile(slots[j]) && IsFile(slots[k]) ==>
         Separate(slots[j], slots[k]))
  }

  ghost predicate Separate(a: Slot, b: Slot) {
    FirstCluster(a) == 0 || FirstCluster(a) != FirstCluster(b)
  }

  /** The slots of a directory are in order, and no name in it overruns the buffer of a search. */
  ghost predicate InOrder(slots: seq<Slot>) {
    Tidy(slots) && Fitting(slots)
  }

  /** A directory the operations below work on. */
  ghost predicate DirOk(g: Geometry, m: Image, dir: nat) {
    && dir in m.chains && InOrder(DirSlots(g, m.disk, m.chains, dir))
    && FilesOk(g, m, dir, DirSlots(g, m.disk, m.chains, dir))
  }

  /** Moreover no two files have the same name, and long names stand whole in their clusters. */
  ghost predicate Strict(g: Geometry, m: Image, dir: nat) {
    && Unambiguous(DirSlots(g, m.disk, m.chains, dir))
    && Neat(DirStarts(g, m.chains, dir), DirSlots(g, m.disk, m.chains, dir))
  }

  ghost function BytesOf(g: Geometry, m: Image, e: Slot): seq<Byte> {
    var all := Contents(g, m.disk, m.chains, FirstCluster(e));
    if FirstCluster(e) in m.chains && Size(e) <= |all| then all[..Size(e)] else []
  }

  /** What a file holds, if there is one of that name. */
  ghost function FileIn(g: Geometry, m: Image, slots: seq<Slot>, name: Name): Option<seq<Byte>> {
    var r := Lookup(slots, name);
    if r.None? || IsDir(slots[r.value]) then None else Some(BytesOf(g, m, slots[r.value]))
  }

  ghost function File(g: Geometry, m: Image, dir: nat, name: Name): Option<seq<Byte>> {
    FileIn(g, m, DirSlots(g, m.disk, m.chains, dir), name)
  }

  /** What every name but `name` gives is the same in both. */
  ghost predicate OthersSame(g: Geometry, a: Image, b: Image, dir: nat, name: Name) {
    forall n :: !SameName(name, n) ==> File(g, b, dir, n) == File(g, a, dir, n)
  }

  lemma Distinguished(slots: seq<Slot>, k: nat, a: Name, b: Name)
    requires Lookup(slots, a) == Some(k) && !SameName(a, b)
    ensures Lookup(slots, b) != Some(k)
  {
    if Lookup(slots, b) == Some(k) {
      SameHit(slots, a, b);
    }
  }

  /** A name that the short form keeps. */
  predicate PlainName(name: Name) {
    name != [] && 0 !in name && Is83(name)
  }

  /** Such a name whose entry is not taken for a deleted one. */
  predicate Visible(name: Name) {
    PlainName(name) && name[0] != DELETED
  }

  lemma {:induction false} NoSpacesKeeps(s: Name)
    requires 0 !in s
    ensures 0 !in NoSpaces(s)
  {
    if s == [] {
    } else {
      NoSpacesKeeps(s[..|s| - 1]);
      assert forall c :: c in s[..|s| - 1] ==> c in s;
    }
  }

  lemma ShortHasNoNul(name: Name)
    requires 0 !in name
    ensures 0 !in Short(name)
  {
    var stem, ext := Stem(name), Extension(name);
    forall i | 0 <= i < |stem|
      ensures Upper(stem[i]) != 0
    {
      assert stem[i] in name;
    }
    forall i | 0 <= i < |ext|
      ensures Upper(ext[i]) != 0
    {
      assert ext[i] in name;
    }
  }

  const FILE_ATTR: Byte := 0x20
  const DIR_ATTR: Byte := 0x10

  /** An entry in use that goes by this name, if no long name stands before it. */
  ghost predicate GoesBy(e: Slot, name: Name) {
    Live(e) && SameName(ShortName(e), name)
  }

  /** So does the new entry for such a name. */
  lemma NewEntryGoesBy(name: Name, attr: Byte)
    requires Visible(name) && attr != LONG_ATTR
    ensures GoesBy(NewEntry(Short(name), attr), name)
  {
    NewEntryFields(Short(name), attr);
    ShortFirst(name);
    ListedHasNoNul(name);
    ShortRoundTrip(name);
    NamedBy(Listed(Short(name)), name, name);
  }

  lemma NamedBy(listed: Name, name: Name, n: Name)
    requires SameName(listed, name) && 0 !in listed
    ensures SameName(CString(listed), n) <==> SameName(name, n)
  {
    IndexOfUnique(listed, 0, |listed|);
    assert CString(listed) == listed;
    SameNameTransitive(listed, name, n);
  }

  lemma ShortFirst(name: Name)
    requires PlainName(name)
    ensures Short(name)[0] != 0x00 && (Short(name)[0] != DELETED <==> Visible(name))
  {
    ShortHasNoNul(name);
    assert Short(name)[0] in Short(name);
    assert Short(name)[0] == if |Stem(name)| > 0 then Upper(name[0]) else SPACE;
  }

  lemma ListedHasNoNul(name: Name)
    requires 0 !in name
    ensures 0 !in Listed(Short(name))
  {
    var short := Short(name);
    ShortHasNoNul(name);
    assert 0 !in short[8..] && 0 !in short[..8];
    NoSpacesKeeps(short[8..]);
    assert forall n :: 0 <= n <= 8 ==> 0 !in short[..8][..n];
  }

  /** Where the chain of a file starts, 0 if it has none. */
  ghost function StartOf(g: Geometry, m: Image, dir: nat, name: Name): nat {
    var slots := DirSlots(g, m.disk, m.chains, dir);
    if Lookup(slots, name).Some? then FirstCluster(slots[Lookup(slots, name).value]) else 0
  }

  // ----- Creating an entry -----

  /** Filling the first free slot comes after making the directory longer, if it is full. */
  lemma FilledAfter(was: seq<Slot>, now: seq<Slot>, zeros: seq<Slot>, k: nat, e: Slot, n: Name)
    requires InOrder(was) && Created(was, now, zeros, k, e)
    ensures var full := was + zeros;
            InOrder(full) && FirstFree(full, 0) == k < |full| && now == full[k := e] && Lookup(full, n) == Lookup(was, n)
  {
    if k < |was| {
      assert was + zeros == was;
    } else {
      GrownTidy(was, zeros);
      GrownFitting(was, zeros);
    }
    GrownLookup(was, zeros, n);
  }

  lemma CreatedOrder(was: seq<Slot>, now: seq<Slot>, zeros: seq<Slot>, k: nat, e: Slot, name: Name)
    requires InOrder(was) && Created(was, now, zeros, k, e) && GoesBy(e, name) && Lookup(was, name) == None
    ensures InOrder(now)
  {
    var full := was + zeros;
    FilledAfter(was, now, zeros, k, e, name);
    LookupSame(full, ShortName(e), name);
    CreatedTidy(full, e);
    TidyAlone(full);
    ChangedFitting(full, k, e);
  }

  lemma CreatedNames(was: seq<Slot>, now: seq<Slot>, zeros: seq<Slot>, k: nat, e: Slot, name: Name, n: Name)
    requires InOrder(was) && Created(was, now, zeros, k, e) && GoesBy(e, name) && Lookup(was, name) == None
    ensures SameName(name, n) ==> Lookup(now, n) == Some(k)
    ensures !SameName(name, n) ==> Lookup(now, n) == Lookup(was, n) != Some(k)
  {
    FilledAfter(was, now, zeros, k, e, n);
    SameNameTransitive(ShortName(e), name, n);
    CreatedLookup(was + zeros, e, n);
    FoundLive(was, n);
    if SameName(name, n) {
      LookupSame(was, name, n);
    }
  }

  /** Entries other than the new one are as they were. */
  lemma CreatedEntries(was: seq<Slot>, now: seq<Slot>, zeros: seq<Slot>, k: nat, e: Slot, j: nat)
    requires Created(was, now, zeros, k, e) && j < |now| && j != k && !Free(now[j])
    ensures j < |was| && now[j] == was[j]
  {
    assert forall i :: |was| <= i < |now| && i != k ==> Free(now[i]);
  }

  /** The files stay good when an entry without clusters, or one that is no file, is put in the first free slot. */
  lemma CreatedFilesOk(g: Geometry, a: Image, b: Image, dir: nat, zeros: seq<Slot>, k: nat, e: Slot)
    requires DirOk(g, a, dir) && Keeps(g, a, b, {dir}) && dir in b.chains
    requires Created(DirSlots(g, a.disk, a.chains, dir), DirSlots(g, b.disk, b.chains, dir), zeros, k, e)
    requires IsFile(e) ==> FirstCluster(e) == 0 && Size(e) == 0
    ensures FilesOk(g, b, dir, DirSlots(g, b.disk, b.chains, dir))
  {
    var was, now := DirSlots(g, a.disk, a.chains, dir), DirSlots(g, b.disk, b.chains, dir);
    forall j | 0 <= j < |now| && IsFile(now[j])
      ensures EntryOk(g, b, dir, now[j])
    {
      if j != k {
        CreatedEntries(was, now, zeros, k, e, j);
        StillOk(g, a, b, dir, was[j]);
      }
    }
    forall i, j | 0 <= i < |now| && 0 <= j < |now| && i != j && IsFile(now[i]) && IsFile(now[j])
      ensures Separate(now[i], now[j])
    {
      if i != k {
        CreatedEntries(was, now, zeros, k, e, i);
        assert EntryOk(g, a, dir, was[i]);
      }
      if i != k && j != k {
        CreatedEntries(was, now, zeros, k, e, j);
        assert Separate(was[i], was[j]);
      }
    }
  }

  /** A file whose chain is kept stays good and holds the same. */
  lemma StillOk(g: Geometry, a: Image, b: Image, dir: nat, e: Slot)
    requires FirstCluster(e) != 0 ==> KeepsChain(g, a, b, FirstCluster(e))
    requires EntryOk(g, a, dir, e)
    ensures EntryOk(g, b, dir, e) && BytesOf(g, b, e) == BytesOf(g, a, e)
  {
  }

  /** A name that finds the same entry gives the same file, if the entry's chain is kept. */
  lemma SameFile(g: Geometry, a: Image, b: Image, dir: nat, n: Name)
    requires DirOk(g, a, dir)
    requires var was, now := DirSlots(g, a.disk, a.chains, dir), DirSlots(g, b.disk, b.chains, dir);
             var r := Lookup(was, n);
             && Lookup(now, n) == r
             && (r.Some? ==> now[r.value] == was[r.value])
             && (r.Some? && IsFile(was[r.value]) && FirstCluster(was[r.value]) != 0 ==>
                  KeepsChain(g, a, b, FirstCluster(was[r.value])))
    ensures File(g, b, dir, n) == File(g, a, dir, n)
  {
    var was := DirSlots(g, a.disk, a.chains, dir);
    var r := Lookup(was, n);
    FoundLive(was, n);
    if r.Some? && !IsDir(was[r.value]) {
      assert EntryOk(g, a, dir, was[r.value]);
      StillOk(g, a, b, dir, was[r.value]);
    }
  }

  lemma CreatedOk(g: Geometry, a: Image, b: Image, dir: nat, zeros: seq<Slot>, k: nat, e: Slot, name: Name)
    requires DirOk(g, a, dir) && Keeps(g, a, b, {dir}) && dir in b.chains
    requires Lookup(DirSlots(g, a.disk, a.chains, dir), name) == None && GoesBy(e, name)
    requires Created(DirSlots(g, a.disk, a.chains, dir), DirSlots(g, b.disk, b.chains, dir), zeros, k, e)
    requires IsFile(e) ==> FirstCluster(e) == 0 && Size(e) == 0
    ensures DirOk(g, b, dir)
  {
    CreatedOrder(DirSlots(g, a.disk, a.chains, dir), DirSlots(g, b.disk, b.chains, dir), zeros, k, e, name);
    CreatedFilesOk(g, a, b, dir, zeros, k, e);
  }

  /** Every other file is as it was. */
  lemma CreatedFile(g: Geometry, a: Image, b: Image, dir: nat, zeros: seq<Slot>, k: nat, e: Slot, name: Name, n: Name)
    requires DirOk(g, a, dir) && Keeps(g, a, b, {dir}) && dir in b.chains
    requires Lookup(DirSlots(g, a.disk, a.chains, dir), name) == None && GoesBy(e, name) && !SameName(name, n)
    requires Created(DirSlots(g, a.disk, a.chains, dir), DirSlots(g, b.disk, b.chains, dir), zeros, k, e)
    ensures File(g, b, dir, n) == File(g, a, dir, n)
  {
    var was, now := DirSlots(g, a.disk, a.chains, dir), DirSlots(g, b.disk, b.chains, dir);
    CreatedNames(was, now, zeros, k, e, name, n);
    ChainsOfFiles(g, a, b, dir, {dir});
    SameFile(g, a, b, dir, n);
  }

  /** The chains of all files are kept, if those that are not are no file's. */
  lemma ChainsOfFiles(g: Geometry, a: Image, b: Image, dir: nat, except: set<nat>)
    requires DirOk(g, a, dir) && Keeps(g, a, b, except)
    ensures var was := DirSlots(g, a.disk, a.chains, dir);
            forall j :: 0 <= j < |was| && IsFile(was[j]) && FirstCluster(was[j]) != 0 && FirstCluster(was[j]) !in except - {dir} ==>
              KeepsChain(g, a, b, FirstCluster(was[j]))
  {
    var was := DirSlots(g, a.disk, a.chains, dir);
    forall j | 0 <= j < |was| && IsFile(was[j]) && FirstCluster(was[j]) != 0 && FirstCluster(was[j]) !in except - {dir}
      ensures KeepsChain(g, a, b, FirstCluster(was[j]))
    {
      assert EntryOk(g, a, dir, was[j]);
    }
  }

  ghost function ImageOf(v: Volume): Image
    reads v, v.disk
  {
    Image(v.disk[..], v.chains)
  }

  /** The entry `e` in slot `k` is the one for `name`: the one that was there, or else a new one. */
  ghost predicate Opened(g: Geometry, a: Image, b: Image, dir: nat, name: Name, e: Slot, k: nat, zeros: seq<Slot>) {
    var was, now := DirSlots(g, a.disk, a.chains, dir), DirSlots(g, b.disk, b.chains, dir);
    && dir in b.chains && k < |now| && e == now[k]
    && if Lookup(was, name).Some? then b == a && Lookup(was, name) == Some(k)
       else e == NewEntry(Short(name), FILE_ATTR) && Created(was, now, zeros, k, e) && Keeps(g, a, b, {dir})
  }

  /** The clusters that the entry for a name takes. */
  ghost function EntryTakes(g: Geometry, m: Image, dir: nat, name: Name): nat {
    var slots := DirSlots(g, m.disk, m.chains, dir);
    if Lookup(slots, name).Some? then 0 else Growth(slots)
  }

  /** The name is there, or it needs no long form to be created. */
  ghost predicate Nameable(g: Geometry, m: Image, dir: nat, name: Name) {
    Lookup(DirSlots(g, m.disk, m.chains, dir), name).Some? || PlainName(name)
  }

  /** No search in a directory in order overruns. */
  lemma NeverFaults(g: Geometry, m: Image, dir: nat, cut: set<nat>, name: Name)
    requires DirOk(g, m, dir)
    ensures !Overruns(cut, DirSlots(g, m.disk, m.chains, dir), name)
  {
    FittingNeverOverruns(cut, DirSlots(g, m.disk, m.chains, dir), name);
  }

  /** A new entry in the directory, or nothing. */
  method CreateNew(v: Volume, dir: nat, name: Name, attr: Byte)
    returns (ok: bool, e: Slot, cluster: nat, offset: nat, ghost at: Spot, ghost k: nat, ghost zeros: seq<Slot>)
    requires v.Valid() && dir in v.chains && PlainName(name)
    modifies v, v.disk
    ensures v.Valid() && v.lost == old(v.lost) && dir in v.chains && Keeps(v.g, old(ImageOf(v)), ImageOf(v), {dir})
    ensures ok <==> Growth(old(DirSlots(v.g, v.disk[..], v.chains, dir))) <= old(v.Spare())
    ensures ok ==> v.Spare() == old(v.Spare()) - Growth(old(DirSlots(v.g, v.disk[..], v.chains, dir)))
    ensures ok ==> e == NewEntry(Short(name), attr) && Place(v.g, v.chains[dir], at, cluster, offset, k)
    ensures ok ==> Created(old(DirSlots(v.g, v.disk[..], v.chains, dir)), DirSlots(v.g, v.disk[..], v.chains, dir), zeros, k, e)
    ensures !ok ==> ImageOf(v) == old(ImageOf(v))
  {
    ghost var a := ImageOf(v);
    ok, e, cluster, offset, at, k, zeros := CreateEntry(v, dir, name, attr);
    KeepsOthers(v.g, a, ImageOf(v), v.fat, dir);
  }

  /** What is known once the entry for a name has been looked for and made if there was none. */
  ghost predicate EntryReady(g: Geometry, a: Image, fa: seq<nat>, b: Image, fb: seq<nat>, dir: nat, name: Name, ok: bool, e: Slot, k: nat,
                         zeros: seq<Slot>)
  {
    && Keeps(g, a, b, {dir}) && (ok <==> EntryTakes(g, a, dir, name) <= |Unused(fa, g.total)|)
    && (ok ==> EntryTakes(g, a, dir, name) + |Unused(fb, g.total)| == |Unused(fa, g.total)|)
    && (ok ==> Opened(g, a, b, dir, name, e, k, zeros)) && (!ok ==> b == a)
    && (Lookup(DirSlots(g, a.disk, a.chains, dir), name).Some? ==> fb == fa)
  }

  lemma ReadyFound(g: Geometry, a: Image, fat: seq<nat>, dir: nat, name: Name, e: Slot, k: nat)
    requires dir in a.chains && Lookup(DirSlots(g, a.disk, a.chains, dir), name) == Some(k)
    requires e == DirSlots(g, a.disk, a.chains, dir)[k]
    ensures EntryReady(g, a, fat, a, fat, dir, name, true, e, k, [])
  {
  }

  lemma ReadyMade(g: Geometry, a: Image, fa: seq<nat>, b: Image, fb: seq<nat>, dir: nat, name: Name, ok: bool, e: Slot, k: nat,
                   zeros: seq<Slot>)
    requires dir in b.chains && Keeps(g, a, b, {dir}) && Lookup(DirSlots(g, a.disk, a.chains, dir), name) == None && (!ok ==> b == a)
    requires ok <==> Growth(DirSlots(g, a.disk, a.chains, dir)) <= |Unused(fa, g.total)|
    requires ok ==> Growth(DirSlots(g, a.disk, a.chains, dir)) + |Unused(fb, g.total)| == |Unused(fa, g.total)|
    requires ok ==> e == NewEntry(Short(name), FILE_ATTR)
    requires ok ==> Created(DirSlots(g, a.disk, a.chains, dir), DirSlots(g, b.disk, b.chains, dir), zeros, k, e)
    ensures EntryReady(g, a, fa, b, fb, dir, name, ok, e, k, zeros)
  {
  }

  /** The entry for `name`, a new one if there is none. */
  method FindOrCreate(v: Volume, dir: nat, name: Name)
    returns (ok: bool, e: Slot, cluster: nat, offset: nat, ghost at: Spot, ghost k: nat, ghost zeros: seq<Slot>)
    requires v.Valid() && DirOk(v.g, ImageOf(v), dir) && Nameable(v.g, ImageOf(v), dir, name)
    modifies v, v.disk
    ensures v.Valid() && v.lost == old(v.lost)
    ensures EntryReady(v.g, old(ImageOf(v)), old(v.fat), ImageOf(v), v.fat, dir, name, ok, e, k, zeros)
    ensures ok ==> Place(v.g, v.chains[dir], at, cluster, offset, k)
  {
    ghost var a, fat := ImageOf(v), v.fat;
    ghost var slots := DirSlots(v.g, v.disk[..], v.chains, dir);
    NeverFaults(v.g, ImageOf(v), dir, {}, name);
    var fault;
    ok, e, cluster, offset, fault, at := FindEntry(v, dir, name);
    if ok {
      k, zeros := Lookup(slots, name).value, [];
      ReadyFound(v.g, a, fat, dir, name, e, k);
      return;
    }
    ok, e, cluster, offset, at, k, zeros := CreateNew(v, dir, name, FILE_ATTR);
    ReadyMade(v.g, a, fat, ImageOf(v), v.fat, dir, name, ok, e, k, zeros);
  }

  /** The entry of a name that can be seen is in use; the directory is as good as it was, with that name in it. */
  lemma OpenedOk(g: Geometry, a: Image, b: Image, dir: nat, name: Name, e: Slot, k: nat, zeros: seq<Slot>)
    requires DirOk(g, a, dir) && Opened(g, a, b, dir, name, e, k, zeros)
    requires Lookup(DirSlots(g, a.disk, a.chains, dir), name).Some? || Visible(name)
    ensures DirOk(g, b, dir) && Lookup(DirSlots(g, b.disk, b.chains, dir), name) == Some(k) && Live(e)
    ensures OthersSame(g, a, b, dir, name)
  {
    var was := DirSlots(g, a.disk, a.chains, dir);
    if Lookup(was, name).None? {
      NewEntryFields(Short(name), FILE_ATTR);
      NewEntryGoesBy(name, FILE_ATTR);
      CreatedOk(g, a, b, dir, zeros, k, e, name);
      CreatedNames(was, DirSlots(g, b.disk, b.chains, dir), zeros, k, e, name, name);
      forall n | !SameName(name, n)
        ensures File(g, b, dir, n) == File(g, a, dir, n)
      {
        CreatedFile(g, a, b, dir, zeros, k, e, name, n);
      }
    }
    FoundLive(DirSlots(g, b.disk, b.chains, dir), name);
  }

  /** An entry that reads as deleted: the directory is as it was to every lookup. */
  lemma HiddenNames(was: seq<Slot>, now: seq<Slot>, zeros: seq<Slot>, k: nat, e: Slot, n: Name)
    requires InOrder(was) && Created(was, now, zeros, k, e) && e[0] == DELETED
    ensures InOrder(now) && Lookup(now, n) == Lookup(was, n)
  {
    var full := was + zeros;
    FilledAfter(was, now, zeros, k, e, n);
    HiddenTidy(full, e);
    ChangedFitting(full, k, e);
    HiddenLookup(full, e, n);
  }

  lemma HiddenOk(g: Geometry, a: Image, b: Image, dir: nat, zeros: seq<Slot>, k: nat, e: Slot)
    requires DirOk(g, a, dir) && Keeps(g, a, b, {dir}) && dir in b.chains && e[0] == DELETED
    requires Created(DirSlots(g, a.disk, a.chains, dir), DirSlots(g, b.disk, b.chains, dir), zeros, k, e)
    ensures DirOk(g, b, dir)
  {
    HiddenNames(DirSlots(g, a.disk, a.chains, dir), DirSlots(g, b.disk, b.chains, dir), zeros, k, e, []);
    CreatedFilesOk(g, a, b, dir, zeros, k, e);
  }

  lemma HiddenFile(g: Geometry, a: Image, b: Image, dir: nat, zeros: seq<Slot>, k: nat, e: Slot, n: Name)
    requires DirOk(g, a, dir) && Keeps(g, a, b, {dir}) && dir in b.chains && e[0] == DELETED
    requires Created(DirSlots(g, a.disk, a.chains, dir), DirSlots(g, b.disk, b.chains, dir), zeros, k, e)
    ensures File(g, b, dir, n) == File(g, a, dir, n)
  {
    var was, now := DirSlots(g, a.disk, a.chains, dir), DirSlots(g, b.disk, b.chains, dir);
    HiddenNames(was, now, zeros, k, e, n);
    FoundLive(was, n);
    ChainsOfFiles(g, a, b, dir, {dir});
    SameFile(g, a, b, dir, n);
  }

  // ----- Reading -----

  ghost predicate NoDirectory(g: Geometry, m: Image, dir: nat, name: Name) {
    var slots := DirSlots(g, m.disk, m.chains, dir);
    Lookup(slots, name).Some? ==> !IsDir(slots[Lookup(slots, name).value])
  }

  /** What a file holds is the start of its chain. */
  lemma FileOfEntry(g: Geometry, fat: seq<nat>, m: Image, dir: nat, name: Name)
    requires Sound(fat, m.chains) && DirOk(g, m, dir) && NoDirectory(g, m, dir, name)
    requires Lookup(DirSlots(g, m.disk, m.chains, dir), name).Some?
    ensures var e := DirSlots(g, m.disk, m.chains, dir)[Lookup(DirSlots(g, m.disk, m.chains, dir), name).value];
            && Size(e) <= |Contents(g, m.disk, m.chains, FirstCluster(e))|
            && File(g, m, dir, name) == Some(Contents(g, m.disk, m.chains, FirstCluster(e))[..Size(e)])
  {
    var slots := DirSlots(g, m.disk, m.chains, dir);
    FoundLive(slots, name);
    assert EntryOk(g, m, dir, slots[Lookup(slots, name).value]);
  }

  /** `fat_read_file`: what the file holds, and nothing for a directory or a name that is not there. */
  method ReadFile(v: Volume, dir: nat, name: Name, memory: bool) returns (data: Option<seq<Byte>>)
    requires v.Valid() && DirOk(v.g, ImageOf(v), dir)
    ensures data == if memory then File(v.g, ImageOf(v), dir, name) else None
  {
    NeverFaults(v.g, ImageOf(v), dir, {}, name);
    var found, e, cluster, offset, fault, at := FindEntry(v, dir, name);
    if !found || IsDir(e) || !memory {
      return None;
    }
    ghost var slots := DirSlots(v.g, v.disk[..], v.chains, dir);
    FoundLive(slots, name);
    assert EntryOk(v.g, ImageOf(v), dir, e);
    FileOfEntry(v.g, v.fat, ImageOf(v), dir, name);
    var out := ReadChain(v, FirstCluster(e), Size(e));
    return Some(out[..Size(e)]);
  }

  // ----- Storing data -----

  /** A chain that grew at its end still begins with the same bytes. */
  lemma GrownContents(g: Geometry, was: seq<Sector>, now: seq<Sector>, fat: seq<nat>, cs: seq<nat>, more: seq<nat>)
    requires Mirrored(g, now, fat) && IsChain(fat, more) && cs <= more && SameData(g, was, now)
    ensures Clusters(g, cs) && Clusters(g, more) && OnDisk(was, Sectors(g, cs)) && OnDisk(now, Sectors(g, more))
    ensures Bytes(was, Sectors(g, cs)) <= Bytes(now, Sectors(g, more))
  {
    ChainSectors(g, now, fat, more);
    var lbas := Sectors(g, more);
    SectorsPrefix(g, more, |cs|);
    assert more[..|cs|] == cs;
    var n := |Sectors(g, cs)|;
    BytesPrefix(now, lbas, n);
    BytesSame(now, was, lbas[..n]);
  }

  lemma {:induction false} SectorsPrefix(g: Geometry, cs: seq<nat>, n: nat)
    requires Clusters(g, cs) && n <= |cs|
    ensures |Sectors(g, cs[..n])| <= |Sectors(g, cs)| && Sectors(g, cs)[..|Sectors(g, cs[..n])|] == Sectors(g, cs[..n])
    decreases |cs|
  {
    if n < |cs| {
      var m := |cs| - 1;
      SectorsPrefix(g, cs[..m], n);
      assert cs[..m][..n] == cs[..n];
    } else {
      assert cs[..n] == cs;
    }
  }

  /** Enough clusters for `need` bytes. */
  function ClustersFor(g: Geometry, need: nat): nat
    requires g.spc > 0
  {
    (need + g.spc * SECTOR - 1) / (g.spc * SECTOR)
  }

  lemma EnoughClusters(g: Geometry, need: nat, cs: seq<nat>)
    requires g.spc > 0 && Clusters(g, cs) && |cs| >= ClustersFor(g, need)
    ensures need <= SECTOR * |Sectors(g, cs)|
  {
    var p := g.spc * SECTOR;
    var q, r := Arith.DivMod(need + p - 1, p);
    SectorsCount(g, cs);
    Arith.MulLe(q, |cs|, p);
    assert need <= q * p;
    Arith.Associate(|cs|, g.spc, SECTOR);
  }

  lemma NoneNeeded(g: Geometry, need: nat)
    requires g.spc > 0
    ensures ClustersFor(g, need) == 0 <==> need == 0
  {
    var p := g.spc * SECTOR;
    var q, r := Arith.DivMod(need + p - 1, p);
    if need == 0 {
      Arith.DivUnique(p - 1, 0, p - 1, p);
    } else if q == 0 {
      assert false;
    }
  }

  /** The chain of a file after data has been put at `offset`. */
  ghost predicate Holds(g: Geometry, a: Image, b: Image, start: nat, first: nat, offset: nat, data: seq<Byte>) {
    && first in b.chains && offset + |data| <= |Contents(g, b.disk, b.chains, first)|
    && offset <= |Contents(g, a.disk, a.chains, start)|
    && Contents(g, b.disk, b.chains, first)[..offset + |data|] == Contents(g, a.disk, a.chains, start)[..offset] + data
  }

  /** This many clusters hold `need` bytes. */
  ghost predicate Suffice(g: Geometry, clusters: nat, need: nat) {
    forall cs :: Clusters(g, cs) && |cs| >= clusters ==> need <= SECTOR * |Sectors(g, cs)|
  }

  lemma ClustersSuffice(g: Geometry, need: nat)
    requires g.spc > 0
    ensures Suffice(g, ClustersFor(g, need), need)
  {
    forall cs | Clusters(g, cs) && |cs| >= ClustersFor(g, need)
      ensures need <= SECTOR * |Sectors(g, cs)|
    {
      EnoughClusters(g, need, cs);
    }
  }

  /** Room for `need` bytes; no data changes. */
  method Reserve(v: Volume, start: nat, needed: nat, ghost need: nat) returns (ok: bool, first: nat)
    requires v.Valid() && (start == 0 || start in v.chains) && Suffice(v.g, needed, need)
    modifies v, v.disk
    ensures v.Valid() && v.lost == old(v.lost) && SameData(v.g, old(v.disk[..]), v.disk[..])
    ensures ok ==> Allocated(old(v.chains), v.chains, start, first, 0) && Keeps(v.g, old(ImageOf(v)), ImageOf(v), {first})
    ensures ok ==> Clusters(v.g, v.chains[first]) && need <= SECTOR * |Sectors(v.g, v.chains[first])|
    ensures ok <==> Takes(old(v.chains), start, needed) <= old(v.Spare())
    ensures !ok ==> Spilt(v.g, old(ImageOf(v)), ImageOf(v), start)
  {
    ghost var a, fat := ImageOf(v), v.fat;
    ok, first := Allocate(v, start, needed);
    if ok {
      KeepsTables(v.g, a, ImageOf(v), fat, {first});
      ChainSectors(v.g, v.disk[..], v.fat, v.chains[first]);
    } else {
      KeepsTables(v.g, a, ImageOf(v), fat, {start});
      SpiltChain(v.g, a, ImageOf(v), v.fat, start);
    }
  }

  /** Every chain but the one at `start` holds what it held, and that one still begins with it. */
  ghost predicate Spilt(g: Geometry, a: Image, b: Image, start: nat) {
    Keeps(g, a, b, {start}) && (start != 0 ==> Begins(g, a, b, start))
  }

  ghost predicate Begins(g: Geometry, a: Image, b: Image, start: nat) {
    start in b.chains && Contents(g, a.disk, a.chains, start) <= Contents(g, b.disk, b.chains, start)
  }

  lemma SpiltChain(g: Geometry, a: Image, b: Image, fat: seq<nat>, start: nat)
    requires Mirrored(g, b.disk, fat) && Sound(fat, b.chains) && SameData(g, a.disk, b.disk)
    requires Spilled(a.chains, b.chains, start)
    ensures start != 0 ==> Begins(g, a, b, start)
  {
    if start != 0 {
      GrownContents(g, a.disk, b.disk, fat, a.chains[start], b.chains[start]);
    }
  }

  /** The data goes into the chain; no other chain changes. */
  method Fill(v: Volume, first: nat, offset: nat, data: seq<Byte>)
    requires v.Valid() && first in v.chains && Clusters(v.g, v.chains[first])
    requires offset + |data| <= SECTOR * |Sectors(v.g, v.chains[first])|
    modifies v.disk
    ensures v.Valid() && Keeps(v.g, old(ImageOf(v)), ImageOf(v), {first})
    ensures Replaced(v.g, old(v.disk[..]), v.disk[..], v.chains[first], offset, data)
  {
    ghost var a, cs := ImageOf(v), v.chains[first];
    ChainSectors(v.g, v.disk[..], v.fat, cs);
    WriteChain(v, first, offset, data, cs);
    KeepsOthers(v.g, a, ImageOf(v), v.fat, first);
  }

  /** The data is in a chain that begins with what was before it, or there was no room for it. */
  ghost predicate DataStored(g: Geometry, a: Image, b: Image, start: nat, first: nat, offset: nat, data: seq<Byte>, ok: bool) {
    if ok then
      && Keeps(g, a, b, {first}) && Holds(g, a, b, start, first, offset, data)
      && first >= 2 && (if start == 0 then first !in a.chains else first == start)
    else Spilt(g, a, b, start)
  }

  method StoreData(v: Volume, start: nat, needed: nat, offset: nat, data: seq<Byte>) returns (ok: bool, first: nat)
    requires v.Valid() && (if start == 0 then offset == 0 else start in v.chains) && Suffice(v.g, needed, offset + |data|)
    requires offset <= |Contents(v.g, v.disk[..], v.chains, start)|
    modifies v, v.disk
    ensures v.Valid() && v.lost == old(v.lost) && DataStored(v.g, old(ImageOf(v)), ImageOf(v), start, first, offset, data, ok)
    ensures ok <==> Takes(old(v.chains), start, needed) <= old(v.Spare())
  {
    ghost var a := ImageOf(v);
    ok, first := Reserve(v, start, needed, offset + |data|);
    if ok {
      FillReserved(v, start, first, offset, data, a);
    }
  }

  /** The data goes to a chain that has been made long enough. */
  method FillReserved(v: Volume, start: nat, first: nat, offset: nat, data: seq<Byte>, ghost a: Image)
    requires v.Valid() && SameData(v.g, a.disk, v.disk[..]) && Allocated(a.chains, v.chains, start, first, 0)
    requires Keeps(v.g, a, ImageOf(v), {first}) && offset <= |Contents(v.g, a.disk, a.chains, start)| && (start == 0 ==> offset == 0)
    requires Clusters(v.g, v.chains[first]) && offset + |data| <= SECTOR * |Sectors(v.g, v.chains[first])|
    modifies v.disk
    ensures v.Valid() && DataStored(v.g, a, ImageOf(v), start, first, offset, data, true)
  {
    ghost var b := ImageOf(v);
    Fill(v, first, offset, data);
    StoredHolds(v.g, a, b, ImageOf(v), v.fat, start, first, offset, data);
    KeepsBoth(v.g, a, b, ImageOf(v), {first}, {first});
    assert {first} + {first} == {first};
  }

  lemma StoredHolds(g: Geometry, a: Image, b: Image, c: Image, fat: seq<nat>, start: nat, first: nat, offset: nat, data: seq<Byte>)
    requires Mirrored(g, b.disk, fat) && first in b.chains && IsChain(fat, b.chains[first]) && c.chains == b.chains
    requires SameData(g, a.disk, b.disk) && Replaced(g, b.disk, c.disk, b.chains[first], offset, data)
    requires if start == 0 then offset == 0 else start == first && start in a.chains && a.chains[start] <= b.chains[first]
    requires offset <= |Contents(g, a.disk, a.chains, start)|
    ensures Holds(g, a, c, start, first, offset, data)
  {
    var all := Bytes(b.disk, Sectors(g, b.chains[first]));
    if start != 0 {
      GrownContents(g, a.disk, b.disk, fat, a.chains[start], b.chains[first]);
      assert all[..offset] == Contents(g, a.disk, a.chains, start)[..offset];
    }
  }

  // ----- Giving a chain back -----

  lemma NoZeroChain(fat: seq<nat>, chains: Chains)
    requires Sound(fat, chains)
    ensures 0 !in chains && chains - {0} == chains
  {
  }

  /** The chain of a file, if it has one, is given back. */
  method Release(v: Volume, start: nat)
    requires v.Valid() && (start == 0 || start in v.chains)
    modifies v, v.disk
    ensures v.Valid() && v.lost == old(v.lost) && Keeps(v.g, old(ImageOf(v)), ImageOf(v), {start})
    ensures v.chains == old(v.chains) - {start} && v.fat == Freed(old(v.fat), ChainAt(old(v.chains), start))
  {
    ghost var a, fat := ImageOf(v), v.fat;
    NoZeroChain(v.fat, v.chains);
    if start != 0 {
      v.FreeChain(start);
    } else {
      assert Freed(v.fat, []) == v.fat;
    }
    KeepsTables(v.g, a, ImageOf(v), fat, {start});
  }

  // ----- Writing a file -----

  /** The file of entry `e` now holds `bytes` under the entry `e2`, which takes its place in slot `k`. */
  ghost predicate Stored(g: Geometry, a: Image, b: Image, dir: nat, k: nat, e: Slot, e2: Slot, bytes: seq<Byte>) {
    && dir in b.chains && k < |DirSlots(g, a.disk, a.chains, dir)|
    && DirSlots(g, b.disk, b.chains, dir) == DirSlots(g, a.disk, a.chains, dir)[k := e2]
    && Keeps(g, a, b, {dir, FirstCluster(e)}) && e2[..12] == e[..12] && IsDir(e2) == IsDir(e)
    && EntryOk(g, b, dir, e2) && BytesOf(g, b, e2) == bytes && Owns(a, e, FirstCluster(e2))
    && ChainAt(b.chains, dir) == ChainAt(a.chains, dir)
  }

  /** A chain for the file that is not the chain of any other. */
  ghost predicate Owns(a: Image, e: Slot, c: nat) {
    c == 0 || c == FirstCluster(e) || c !in a.chains
  }

  lemma StoredOk(g: Geometry, a: Image, b: Image, dir: nat, k: nat, e: Slot, e2: Slot, bytes: seq<Byte>)
    requires DirOk(g, a, dir) && Stored(g, a, b, dir, k, e, e2, bytes)
    requires DirSlots(g, a.disk, a.chains, dir)[k] == e && IsFile(e)
    ensures DirOk(g, b, dir)
  {
    var was, now := DirSlots(g, a.disk, a.chains, dir), DirSlots(g, b.disk, b.chains, dir);
    SameHeader(e, e2);
    UpdatedTidy(was, k, e2);
    ChangedFitting(was, k, e2);
    forall j | 0 <= j < |now| && IsFile(now[j])
      ensures EntryOk(g, b, dir, now[j])
      ensures j != k ==> Separate(now[j], e2) && Separate(e2, now[j])
    {
      if j != k {
        assert EntryOk(g, a, dir, was[j]) && Separate(was[j], was[k]) && Separate(was[k], was[j]);
        assert FirstCluster(was[j]) != 0 ==> KeepsChain(g, a, b, FirstCluster(was[j]));
      }
    }
    forall i, j | 0 <= i < |now| && 0 <= j < |now| && i != j && IsFile(now[i]) && IsFile(now[j])
      ensures Separate(now[i], now[j])
    {
      assert i != k && j != k ==> Separate(was[i], was[j]);
    }
  }

  lemma SameHeader(e: Slot, e2: Slot)
    requires e2[..12] == e[..12]
    ensures e2[0] == e[0] && e2[11] == e[11] && e2[..11] == e[..11]
  {
    assert e2[..12][0] == e[..12][0] && e2[..12][11] == e[..12][11];
    assert e2[..12][..11] == e[..12][..11];
  }

  /** The next read of the file gives the bytes stored, and of any other file what it gave before. */
  lemma StoredFile(g: Geometry, a: Image, b: Image, dir: nat, k: nat, e: Slot, e2: Slot, bytes: seq<Byte>, name: Name, n: Name)
    requires DirOk(g, a, dir) && Stored(g, a, b, dir, k, e, e2, bytes)
    requires DirSlots(g, a.disk, a.chains, dir)[k] == e && IsFile(e)
    requires Lookup(DirSlots(g, a.disk, a.chains, dir), name) == Some(k)
    ensures File(g, b, dir, name) == Some(bytes)
    ensures !SameName(name, n) ==> File(g, b, dir, n) == File(g, a, dir, n)
  {
    var was := DirSlots(g, a.disk, a.chains, dir);
    SameHeader(e, e2);
    UpdatedLookup(was, k, e2, name);
    UpdatedLookup(was, k, e2, n);
    if !SameName(name, n) {
      Distinguished(was, k, name, n);
      OtherChain(g, a, b, dir, k, n);
      SameFile(g, a, b, dir, n);
    }
  }

  /** Another file's chain is kept when only the directory's and one file's are not. */
  lemma OtherChain(g: Geometry, a: Image, b: Image, dir: nat, k: nat, n: Name)
    requires DirOk(g, a, dir) && k < |DirSlots(g, a.disk, a.chains, dir)| && IsFile(DirSlots(g, a.disk, a.chains, dir)[k])
    requires Keeps(g, a, b, {dir, FirstCluster(DirSlots(g, a.disk, a.chains, dir)[k])})
    requires Lookup(DirSlots(g, a.disk, a.chains, dir), n) != Some(k)
    ensures var was := DirSlots(g, a.disk, a.chains, dir);
            var r := Lookup(was, n);
            r.Some? && IsFile(was[r.value]) && FirstCluster(was[r.value]) != 0 ==> KeepsChain(g, a, b, FirstCluster(was[r.value]))
  {
    var was := DirSlots(g, a.disk, a.chains, dir);
    var r := Lookup(was, n);
    if r.Some? && IsFile(was[r.value]) {
      assert EntryOk(g, a, dir, was[r.value]) && Separate(was[r.value], was[k]);
    }
  }

  /** What the file holds once its data is stored and before its entry says so. */
  ghost predicate Written(g: Geometry, a: Image, b: Image, dir: nat, e: Slot, first: nat, bytes: seq<Byte>) {
    && Keeps(g, a, b, {FirstCluster(e)}) && Owns(a, e, first)
    && (if bytes == [] then first == 0 else first != 0 && first != dir && first in b.chains)
    && (var all := Contents(g, b.disk, b.chains, first); bytes != [] ==> |bytes| <= |all| && all[..|bytes|] == bytes)
  }

  /** The old bytes that stay: all of them when appending, none otherwise. */
  ghost function Before(g: Geometry, a: Image, e: Slot, append: bool): seq<Byte> {
    if append then BytesOf(g, a, e) else []
  }

  /** The clusters that the data of a file of `size` bytes takes, if its chain starts at `start` now. */
  ghost function DataTakes(g: Geometry, chains: Chains, start: nat, size: nat, append: bool): nat
    requires g.spc > 0
  {
    var n := ClustersFor(g, size);
    if n == 0 then 0 else Takes(chains, if append then start else 0, n)
  }

  /** The clusters there are for it: those that are free, with the old chain's own if it is not gone on with. */
  ghost function Room(g: Geometry, fat: seq<nat>, chains: Chains, start: nat, append: bool): nat {
    |Unused(if append then fat else Freed(fat, ChainAt(chains, start)), g.total)|
  }

  /** Writing anew, a file has the free clusters and its own as far as they are ever given out again. */
  lemma RoomAnew(g: Geometry, fat: seq<nat>, chains: Chains, start: nat)
    requires Sound(fat, chains) && (start == 0 || start in chains)
    ensures Room(g, fat, chains, start, false) == |Unused(fat, g.total)| + |Below(ChainAt(chains, start), g.total)|
  {
    if start == 0 {
      NoZeroChain(fat, chains);
      FreedNothing(fat);
      assert Below([], g.total) == {};
    } else {
      UnusedFreed(fat, chains[start], g.total);
    }
  }

  ghost predicate HasRoom(g: Geometry, fat: seq<nat>, chains: Chains, start: nat, size: nat, append: bool)
    requires g.spc > 0
  {
    DataTakes(g, chains, start, size, append) <= Room(g, fat, chains, start, append)
  }

  /** The old chain has been given back, or is gone on with from `offset`. */
  ghost predicate Prepared(g: Geometry, a: Image, b: Image, e: Slot, append: bool, start: nat, offset: nat) {
    && Keeps(g, a, b, {FirstCluster(e)}) && start == (if append then FirstCluster(e) else 0)
    && offset == |Before(g, a, e, append)| && offset <= |Contents(g, b.disk, b.chains, start)|
    && (if start == 0 then offset == 0 else start in b.chains && offset == Size(e) && b == a)
    && b.chains.Keys <= a.chains.Keys && a.chains.Keys <= b.chains.Keys + {FirstCluster(e)}
    && ChainAt(b.chains, start) == ChainAt(a.chains, start)
  }

  lemma PreparedAsIs(g: Geometry, a: Image, fat: seq<nat>, dir: nat, e: Slot, append: bool)
    requires EntryOk(g, a, dir, e) && Sound(fat, a.chains) && (append || FirstCluster(e) == 0)
    ensures Prepared(g, a, a, e, append, FirstCluster(e), if FirstCluster(e) == 0 then 0 else Size(e))
    ensures Room(g, fat, a.chains, FirstCluster(e), append) == |Unused(fat, g.total)|
  {
    NoZeroChain(fat, a.chains);
    FreedNothing(fat);
    assert Keeps(g, a, a, {FirstCluster(e)});
  }

  lemma PreparedAnew(g: Geometry, a: Image, b: Image, fat: seq<nat>, dir: nat, e: Slot)
    requires EntryOk(g, a, dir, e) && Sound(fat, a.chains) && Keeps(g, a, b, {FirstCluster(e)}) && b.chains == a.chains - {FirstCluster(e)}
    ensures Prepared(g, a, b, e, false, 0, 0)
  {
    NoZeroChain(fat, a.chains);
  }

  method Prepare(v: Volume, dir: nat, e: Slot, append: bool) returns (start: nat, offset: nat)
    requires v.Valid() && dir in v.chains && EntryOk(v.g, ImageOf(v), dir, e)
    modifies v, v.disk
    ensures v.Valid() && v.lost == old(v.lost) && Prepared(v.g, old(ImageOf(v)), ImageOf(v), e, append, start, offset)
    ensures v.Spare() == Room(v.g, old(v.fat), old(v.chains), FirstCluster(e), append)
  {
    ghost var a, fat := ImageOf(v), v.fat;
    start, offset := FirstCluster(e), 0;
    if append || start == 0 {
      PreparedAsIs(v.g, a, fat, dir, e, append);
    }
    if append && start != 0 {
      offset := Size(e);
    } else if start != 0 {
      Release(v, start);
      PreparedAnew(v.g, a, ImageOf(v), fat, dir, e);
      start := 0;
    }
  }

  /** The middle of `fat_write_file`: the old chain is given back or gone on with, and the data is stored. */
  method Replace(v: Volume, dir: nat, e: Slot, data: seq<Byte>, append: bool, ghost bytes: seq<Byte>)
    returns (ok: bool, first: nat, size: nat)
    requires v.Valid() && dir in v.chains && EntryOk(v.g, ImageOf(v), dir, e)
    requires bytes == Before(v.g, ImageOf(v), e, append) + data
    modifies v, v.disk
    ensures v.Valid() && v.lost == old(v.lost)
    ensures ok <==> HasRoom(v.g, old(v.fat), old(v.chains), FirstCluster(e), |bytes|, append)
    ensures ok ==> size == |bytes| && Written(v.g, old(ImageOf(v)), ImageOf(v), dir, e, first, bytes)
    ensures !ok ==> Unwritten(v.g, old(ImageOf(v)), ImageOf(v), e, append)
  {
    ghost var a := ImageOf(v);
    RoomOf(v.g, v.fat, v.chains, FirstCluster(e), |bytes|, append);
    var start, offset := Prepare(v, dir, e, append);
    size := offset + |data|;
    assert size == |bytes|;
    var needed := ClustersFor(v.g, size);
    NoneNeeded(v.g, size);
    ClustersSuffice(v.g, size);
    ok, first := Put(v, dir, e, start, needed, offset, data, append, a, bytes);
  }

  lemma RoomOf(g: Geometry, fat: seq<nat>, chains: Chains, start: nat, size: nat, append: bool)
    requires g.spc > 0
    ensures HasRoom(g, fat, chains, start, size, append) <==>
            var needed := ClustersFor(g, size);
            needed == 0 || Takes(chains, if append then start else 0, needed) <= Room(g, fat, chains, start, append)
  {
  }

  /** The data is stored where there is any. */
  method Put(v: Volume, dir: nat, e: Slot, start: nat, needed: nat, offset: nat, data: seq<Byte>, append: bool,
             ghost a: Image, ghost bytes: seq<Byte>) returns (ok: bool, first: nat)
    requires v.Valid() && dir in a.chains && EntryOk(v.g, a, dir, e) && Prepared(v.g, a, ImageOf(v), e, append, start, offset)
    requires Suffice(v.g, needed, offset + |data|) && (needed == 0 <==> offset + |data| == 0)
    requires bytes == Before(v.g, a, e, append) + data
    modifies v, v.disk
    ensures v.Valid() && v.lost == old(v.lost)
    ensures ok <==> needed == 0 || Takes(a.chains, start, needed) <= old(v.Spare())
    ensures ok ==> Written(v.g, a, ImageOf(v), dir, e, first, bytes)
    ensures !ok ==> Unwritten(v.g, a, ImageOf(v), e, append)
  {
    if needed == 0 {
      return true, 0;
    }
    ghost var b, fat := ImageOf(v), v.fat;
    ok, first := StoreData(v, start, needed, offset, data);
    if ok {
      ReplacedWritten(v.g, a, b, ImageOf(v), dir, e, start, first, offset, data, append);
    } else {
      SpiltUnwritten(v.g, a, b, ImageOf(v), fat, e, start, offset, append);
    }
  }

  /** The disk was too full for the data: the old chain is gone, or there with all it held. */
  ghost predicate Unwritten(g: Geometry, a: Image, b: Image, e: Slot, append: bool) {
    Keeps(g, a, b, {FirstCluster(e)}) && (append && FirstCluster(e) != 0 ==> Begins(g, a, b, FirstCluster(e)))
  }

  lemma SpiltUnwritten(g: Geometry, a: Image, b: Image, c: Image, fat: seq<nat>, e: Slot, start: nat, offset: nat, append: bool)
    requires Sound(fat, b.chains) && Prepared(g, a, b, e, append, start, offset) && Spilt(g, b, c, start)
    ensures Unwritten(g, a, c, e, append)
  {
    NoZeroChain(fat, b.chains);
    forall h | h in a.chains && h !in {FirstCluster(e)}
      ensures KeepsChain(g, a, c, h)
    {
      assert KeepsChain(g, a, b, h) && h in b.chains;
      assert KeepsChain(g, b, c, h);
    }
  }

  lemma ReplacedWritten(g: Geometry, a: Image, b: Image, c: Image, dir: nat, e: Slot, start: nat, first: nat, offset: nat,
                        data: seq<Byte>, append: bool)
    requires dir in a.chains && EntryOk(g, a, dir, e) && Prepared(g, a, b, e, append, start, offset) && Keeps(g, b, c, {first})
    requires first >= 2 && if start == 0 then first !in b.chains else first == start
    requires Holds(g, b, c, start, first, offset, data) && offset + |data| > 0
    ensures Written(g, a, c, dir, e, first, Before(g, a, e, append) + data)
  {
  }

  /** One slot of the directory is rewritten; every other chain is as it was. */
  method RewriteSlot(v: Volume, dir: nat, cluster: nat, offset: nat, entry: Slot, ghost at: Spot, ghost k: nat)
    requires v.Valid() && dir in v.chains && Place(v.g, v.chains[dir], at, cluster, offset, k)
    modifies v.disk
    ensures v.Valid() && Keeps(v.g, old(ImageOf(v)), ImageOf(v), {dir})
    ensures k < |old(DirSlots(v.g, v.disk[..], v.chains, dir))|
    ensures DirSlots(v.g, v.disk[..], v.chains, dir) == old(DirSlots(v.g, v.disk[..], v.chains, dir))[k := entry]
  {
    ghost var a, cs := ImageOf(v), v.chains[dir];
    ChainSectors(v.g, v.disk[..], v.fat, cs);
    UpdateDirent(v, cluster, offset, entry, cs, at, k);
    SlotWrittenOnly(v.g, a.disk, v.disk[..], cs, k, entry);
    KeepsOthers(v.g, a, ImageOf(v), v.fat, dir);
  }

  lemma RecordedStored(g: Geometry, a: Image, b: Image, c: Image, dir: nat, e: Slot, e2: Slot, k: nat, first: nat, size: nat,
                       bytes: seq<Byte>)
    requires dir in a.chains && dir != FirstCluster(e) && Written(g, a, b, dir, e, first, bytes) && Keeps(g, b, c, {dir})
    requires c.chains == b.chains && k < |DirSlots(g, b.disk, b.chains, dir)|
    requires DirSlots(g, c.disk, c.chains, dir) == DirSlots(g, b.disk, b.chains, dir)[k := e2]
    requires first < WORD && size == |bytes| < WORD && e2 == WithFile(e, first, size)
    ensures Stored(g, a, c, dir, k, e, e2, bytes)
  {
    assert KeepsChain(g, a, b, dir);
    FileFields(e, first, size);
    KeepsBoth(g, a, b, c, {FirstCluster(e)}, {dir});
    assert {FirstCluster(e)} + {dir} == {dir, FirstCluster(e)};
    if bytes != [] {
      assert KeepsChain(g, b, c, first);
    }
  }

  /** The sizes `fat_write_file` computes fit in 32 bits. */
  ghost predicate Fits(g: Geometry, held: nat, more: nat) {
    held + more + g.spc * SECTOR <= WORD
  }

  lemma StoredFiles(g: Geometry, a: Image, b: Image, dir: nat, k: nat, e: Slot, e2: Slot, bytes: seq<Byte>, name: Name)
    requires DirOk(g, a, dir) && Stored(g, a, b, dir, k, e, e2, bytes)
    requires DirSlots(g, a.disk, a.chains, dir)[k] == e && IsFile(e)
    requires Lookup(DirSlots(g, a.disk, a.chains, dir), name) == Some(k)
    ensures DirOk(g, b, dir) && File(g, b, dir, name) == Some(bytes) && OthersSame(g, a, b, dir, name)
    ensures Keeps(g, a, b, {dir, FirstCluster(e)})
  {
    StoredOk(g, a, b, dir, k, e, e2, bytes);
    StoredFile(g, a, b, dir, k, e, e2, bytes, name, name);
    forall n | !SameName(name, n)
      ensures File(g, b, dir, n) == File(g, a, dir, n)
    {
      StoredFile(g, a, b, dir, k, e, e2, bytes, name, n);
    }
  }

  method StoreBytes(v: Volume, dir: nat, e: Slot, cluster: nat, offset: nat, data: seq<Byte>, append: bool,
                    ghost at: Spot, ghost k: nat, ghost bytes: seq<Byte>) returns (ok: bool, ghost e2: Slot)
    requires v.Valid() && dir in v.chains && EntryOk(v.g, ImageOf(v), dir, e)
    requires Place(v.g, v.chains[dir], at, cluster, offset, k) && dir != FirstCluster(e)
    requires bytes == Before(v.g, ImageOf(v), e, append) + data && |bytes| < WORD
    modifies v, v.disk
    ensures v.Valid() && v.lost == old(v.lost)
    ensures ok <==> HasRoom(v.g, old(v.fat), old(v.chains), FirstCluster(e), |bytes|, append)
    ensures ok ==> Stored(v.g, old(ImageOf(v)), ImageOf(v), dir, k, e, e2, bytes)
    ensures !ok ==> Unwritten(v.g, old(ImageOf(v)), ImageOf(v), e, append)
  {
    ghost var a, room := ImageOf(v), HasRoom(v.g, v.fat, v.chains, FirstCluster(e), |bytes|, append);
    var first, size;
    ok, first, size := Replace(v, dir, e, data, append, bytes);
    assert ok <==> room;
    e2 := e;
    if ok {
      e2 := Record(v, dir, e, cluster, offset, first, size, a, at, k, bytes);
    }
  }

  /** The end of `fat_write_file`: the entry gets its first cluster and size. */
  method Record(v: Volume, dir: nat, e: Slot, cluster: nat, offset: nat, first: nat, size: nat,
                ghost a: Image, ghost at: Spot, ghost k: nat, ghost bytes: seq<Byte>) returns (ghost e2: Slot)
    requires v.Valid() && dir in a.chains && dir != FirstCluster(e) && Written(v.g, a, ImageOf(v), dir, e, first, bytes)
    requires Place(v.g, a.chains[dir], at, cluster, offset, k) && size == |bytes| < WORD
    modifies v.disk
    ensures v.Valid() && Stored(v.g, a, ImageOf(v), dir, k, e, e2, bytes)
  {
    ghost var b := ImageOf(v);
    DirectoryKept(v.g, v.fat, a, b, dir, e, first, bytes);
    var entry := WithFile(e, first, size);
    RewriteSlot(v, dir, cluster, offset, entry, at, k);
    RecordedStored(v.g, a, b, ImageOf(v), dir, e, entry, k, first, size, bytes);
    e2 := entry;
  }

  lemma NotTheDirectory(g: Geometry, fat: seq<nat>, m: Image, dir: nat, e: Slot)
    requires Sound(fat, m.chains) && dir in m.chains && EntryOk(g, m, dir, e)
    ensures FirstCluster(e) != dir
  {
  }

  lemma DirectoryKept(g: Geometry, fat: seq<nat>, a: Image, b: Image, dir: nat, e: Slot, first: nat, bytes: seq<Byte>)
    requires Sound(fat, b.chains) && |fat| <= END_MARKS && dir in a.chains && dir != FirstCluster(e)
    requires Written(g, a, b, dir, e, first, bytes)
    ensures first < WORD && dir in b.chains && b.chains[dir] == a.chains[dir]
    ensures DirSlots(g, b.disk, b.chains, dir) == DirSlots(g, a.disk, a.chains, dir)
  {
    assert KeepsChain(g, a, b, dir);
    assert first in b.chains ==> IsChain(fat, b.chains[first]);
  }

  /** What stays of the file is what it held before, nothing if it is new. */
  ghost function HeldBefore(g: Geometry, m: Image, dir: nat, name: Name, append: bool): seq<Byte> {
    var f := File(g, m, dir, name);
    if append && f.Some? then f.value else []
  }

  /** The entry is good, and what stays of its file is what the name gave before. */
  lemma OpenedEntry(g: Geometry, a: Image, b: Image, dir: nat, name: Name, e: Slot, k: nat, zeros: seq<Slot>, append: bool)
    requires DirOk(g, a, dir) && Opened(g, a, b, dir, name, e, k, zeros) && !IsDir(e)
    ensures EntryOk(g, b, dir, e) && Before(g, b, e, append) == HeldBefore(g, a, dir, name, append)
    ensures FirstCluster(e) == StartOf(g, a, dir, name)
  {
    NewEntryFields(Short(name), FILE_ATTR);
    FoundLive(DirSlots(g, a.disk, a.chains, dir), name);
  }

  /** All that a successful write of a name that can be seen does. */
  lemma WriteSeen(g: Geometry, a: Image, b: Image, c: Image, dir: nat, name: Name, e: Slot, e2: Slot, k: nat, zeros: seq<Slot>,
                  bytes: seq<Byte>)
    requires DirOk(g, a, dir) && Opened(g, a, b, dir, name, e, k, zeros) && !IsDir(e)
    requires Lookup(DirSlots(g, a.disk, a.chains, dir), name).Some? || Visible(name)
    requires Stored(g, b, c, dir, k, e, e2, bytes)
    ensures DirOk(g, c, dir) && File(g, c, dir, name) == Some(bytes) && OthersSame(g, a, c, dir, name)
  {
    OpenedOk(g, a, b, dir, name, e, k, zeros);
    StoredFiles(g, b, c, dir, k, e, e2, bytes, name);
    forall n | !SameName(name, n)
      ensures File(g, c, dir, n) == File(g, a, dir, n)
    {
      assert File(g, c, dir, n) == File(g, b, dir, n);
    }
  }

  lemma SetTwice(slots: seq<Slot>, k: nat, a: Slot, b: Slot)
    requires k < |slots|
    ensures slots[k := a][k := b] == slots[k := b]
  {
  }

  /** All that a successful write of any other name does. */
  lemma WriteHidden(g: Geometry, a: Image, b: Image, c: Image, dir: nat, name: Name, e: Slot, e2: Slot, k: nat, zeros: seq<Slot>,
                    bytes: seq<Byte>)
    requires DirOk(g, a, dir) && PlainName(name) && Opened(g, a, b, dir, name, e, k, zeros) && 0 !in a.chains
    requires Lookup(DirSlots(g, a.disk, a.chains, dir), name) == None && !Visible(name)
    requires Stored(g, b, c, dir, k, e, e2, bytes)
    ensures DirOk(g, c, dir) && forall n :: File(g, c, dir, n) == File(g, a, dir, n)
  {
    NewEntryFields(Short(name), FILE_ATTR);
    ShortFirst(name);
    SameHeader(e, e2);
    KeepsMore(g, a, b, c, dir, 0);
    assert Keeps(g, a, c, {dir});
    var was := DirSlots(g, a.disk, a.chains, dir);
    SetTwice(was + zeros, k, e, e2);
    assert DirSlots(g, c.disk, c.chains, dir) == (was + zeros)[k := e2];
    HiddenOk(g, a, c, dir, zeros, k, e2);
    forall n: Name
      ensures File(g, c, dir, n) == File(g, a, dir, n)
    {
      HiddenFile(g, a, c, dir, zeros, k, e2, n);
    }
  }

  /** There are clusters enough for the entry and `size` bytes of data. */
  ghost predicate RoomFor(g: Geometry, m: Image, fat: seq<nat>, dir: nat, name: Name, size: nat, append: bool)
    requires g.spc > 0
  {
    var start := StartOf(g, m, dir, name);
    EntryTakes(g, m, dir, name) + DataTakes(g, m.chains, start, size, append) <= Room(g, fat, m.chains, start, append)
  }

  /**
   * A write succeeds: the entry is no directory, and there are clusters enough for the entry and the data,
   * counting those that the file gives back first.
   */
  ghost predicate CanWrite(g: Geometry, m: Image, fat: seq<nat>, dir: nat, name: Name, data: seq<Byte>, append: bool)
    requires g.spc > 0
  {
    NoDirectory(g, m, dir, name) && RoomFor(g, m, fat, dir, name, |HeldBefore(g, m, dir, name, append) + data|, append)
  }

  /** After the entry has been made there is room for the data exactly when there was room for both. */
  lemma RoomLeft(g: Geometry, m: Image, fat: seq<nat>, chains: Chains, next: seq<nat>, dir: nat, name: Name, start: nat, size: nat,
                 append: bool)
    requires Sound(fat, m.chains) && Sound(next, chains) && g.spc > 0 && start == StartOf(g, m, dir, name)
    requires Lookup(DirSlots(g, m.disk, m.chains, dir), name).Some? ==> next == fat && chains == m.chains
    requires EntryTakes(g, m, dir, name) + |Unused(next, g.total)| == |Unused(fat, g.total)|
    ensures HasRoom(g, next, chains, start, size, append) <==> RoomFor(g, m, fat, dir, name, size, append)
  {
    if Lookup(DirSlots(g, m.disk, m.chains, dir), name).None? {
      NewFileRoom(g, fat, m.chains, size, append);
      NewFileRoom(g, next, chains, size, append);
    }
  }

  /** A file without a chain has the free clusters, and what it takes does not depend on the chains there are. */
  lemma NewFileRoom(g: Geometry, fat: seq<nat>, chains: Chains, size: nat, append: bool)
    requires Sound(fat, chains) && g.spc > 0
    ensures Room(g, fat, chains, 0, append) == |Unused(fat, g.total)|
    ensures DataTakes(g, chains, 0, size, append) == if ClustersFor(g, size) == 0 then 0 else ClustersFor(g, size) + 1
  {
    NoZeroChain(fat, chains);
    FreedNothing(fat);
  }

  lemma FreedNothing(fat: seq<nat>)
    ensures Freed(fat, []) == fat
  {
  }

  /**
   * What a successful write of `name` has done, `bytes` being what the file is to hold: it holds them, unless
   * the name is a new one that begins with the byte of a deleted entry; then there still is no such file. Every
   * other file of the directory is as it was, and so is every chain of the volume that is neither the
   * directory's nor the file's own.
   */
  ghost predicate Wrote(g: Geometry, a: Image, c: Image, dir: nat, name: Name, bytes: seq<Byte>) {
    && DirOk(g, c, dir) && OthersSame(g, a, c, dir, name) && Keeps(g, a, c, {dir, StartOf(g, a, dir, name)})
    && File(g, c, dir, name) == if File(g, a, dir, name).Some? || Visible(name) then Some(bytes) else None
  }

  /** The write gives the clusters of the file back before it takes new ones. */
  ghost predicate Overwrites(g: Geometry, m: Image, dir: nat, name: Name, append: bool) {
    NoDirectory(g, m, dir, name) && !append && StartOf(g, m, dir, name) != 0
  }

  /**
   * What a write that fails has done; `made` says that there was a cluster for the entry if it needed one. Every
   * other file is as it was. The file itself is, too, or is there now and empty, unless it was being overwritten.
   */
  ghost predicate Failed(g: Geometry, a: Image, c: Image, dir: nat, name: Name, append: bool, made: bool) {
    && OthersSame(g, a, c, dir, name) && Keeps(g, a, c, {dir, StartOf(g, a, dir, name)})
    && (!Overwrites(g, a, dir, name, append) ==>
         && DirOk(g, c, dir)
         && File(g, c, dir, name) ==
              if Lookup(DirSlots(g, a.disk, a.chains, dir), name).None? && made && Visible(name) then Some([])
              else File(g, a, dir, name))
  }

  lemma NothingFailed(g: Geometry, a: Image, dir: nat, name: Name, append: bool, made: bool)
    requires DirOk(g, a, dir) && (made ==> Lookup(DirSlots(g, a.disk, a.chains, dir), name).Some?)
    ensures Failed(g, a, a, dir, name, append, made)
  {
    assert Keeps(g, a, a, {dir, StartOf(g, a, dir, name)});
  }

  /** A file that was not being overwritten is still good, and holds what it held. */
  lemma UnwrittenEntry(g: Geometry, b: Image, c: Image, dir: nat, e: Slot, append: bool)
    requires EntryOk(g, b, dir, e) && Unwritten(g, b, c, e, append) && (append || FirstCluster(e) == 0)
    ensures EntryOk(g, c, dir, e) && BytesOf(g, c, e) == BytesOf(g, b, e)
  {
  }

  lemma UnwrittenOk(g: Geometry, b: Image, c: Image, dir: nat, k: nat, e: Slot, append: bool)
    requires DirOk(g, b, dir) && dir != FirstCluster(e) && Unwritten(g, b, c, e, append) && (append || FirstCluster(e) == 0)
    requires k < |DirSlots(g, b.disk, b.chains, dir)| && DirSlots(g, b.disk, b.chains, dir)[k] == e && IsFile(e)
    ensures DirOk(g, c, dir) && BytesOf(g, c, e) == BytesOf(g, b, e)
  {
    var slots := DirSlots(g, b.disk, b.chains, dir);
    assert EntryOk(g, b, dir, e);
    assert KeepsChain(g, b, c, dir);
    UnwrittenEntry(g, b, c, dir, e, append);
    forall j | 0 <= j < |slots| && IsFile(slots[j]) && j != k
      ensures EntryOk(g, c, dir, slots[j])
    {
      assert EntryOk(g, b, dir, slots[j]) && Separate(slots[j], slots[k]);
      StillOk(g, b, c, dir, slots[j]);
    }
  }

  lemma UnwrittenOthers(g: Geometry, b: Image, c: Image, dir: nat, k: nat, e: Slot, append: bool, name: Name)
    requires DirOk(g, b, dir) && dir != FirstCluster(e) && Unwritten(g, b, c, e, append) && Lookup(DirSlots(g, b.disk, b.chains, dir), name) == Some(k)
    requires k < |DirSlots(g, b.disk, b.chains, dir)| && DirSlots(g, b.disk, b.chains, dir)[k] == e && IsFile(e)
    ensures OthersSame(g, b, c, dir, name) && DirSlots(g, c.disk, c.chains, dir) == DirSlots(g, b.disk, b.chains, dir)
  {
    var slots := DirSlots(g, b.disk, b.chains, dir);
    assert EntryOk(g, b, dir, e);
    assert KeepsChain(g, b, c, dir);
    assert Keeps(g, b, c, {dir, FirstCluster(e)});
    forall n | !SameName(name, n)
      ensures File(g, c, dir, n) == File(g, b, dir, n)
    {
      Distinguished(slots, k, name, n);
      OtherChain(g, b, c, dir, k, n);
      SameFile(g, b, c, dir, n);
    }
  }

  lemma StoreFailedSeen(g: Geometry, a: Image, b: Image, c: Image, dir: nat, name: Name, e: Slot, k: nat, zeros: seq<Slot>, append: bool)
    requires DirOk(g, a, dir) && Opened(g, a, b, dir, name, e, k, zeros) && !IsDir(e) && Unwritten(g, b, c, e, append)
    requires dir != FirstCluster(e)
    requires Lookup(DirSlots(g, a.disk, a.chains, dir), name).Some? || Visible(name)
    ensures OthersSame(g, a, c, dir, name)
    ensures !Overwrites(g, a, dir, name, append) ==>
              && DirOk(g, c, dir)
              && File(g, c, dir, name) ==
                   if Lookup(DirSlots(g, a.disk, a.chains, dir), name).None? then Some([]) else File(g, a, dir, name)
  {
    OpenedOk(g, a, b, dir, name, e, k, zeros);
    OpenedEntry(g, a, b, dir, name, e, k, zeros, true);
    UnwrittenOthers(g, b, c, dir, k, e, append, name);
    forall n | !SameName(name, n)
      ensures File(g, c, dir, n) == File(g, a, dir, n)
    {
      assert File(g, c, dir, n) == File(g, b, dir, n);
    }
    if append || FirstCluster(e) == 0 {
      UnwrittenOk(g, b, c, dir, k, e, append);
    }
  }

  lemma StoreFailed(g: Geometry, a: Image, b: Image, c: Image, fat: seq<nat>, dir: nat, name: Name, e: Slot, k: nat, zeros: seq<Slot>,
                    append: bool)
    requires DirOk(g, a, dir) && Nameable(g, a, dir, name) && Opened(g, a, b, dir, name, e, k, zeros)
    requires !IsDir(e) && Sound(fat, a.chains)
    requires Unwritten(g, b, c, e, append) && dir != FirstCluster(e)
    ensures Failed(g, a, c, dir, name, append, true)
  {
    FailedKeeps(g, a, b, c, dir, name, e, k, zeros, append);
    if Lookup(DirSlots(g, a.disk, a.chains, dir), name).Some? || Visible(name) {
      StoreFailedSeen(g, a, b, c, dir, name, e, k, zeros, append);
    } else {
      NoZeroChain(fat, a.chains);
      FailedHidden(g, a, b, c, dir, name, e, k, zeros, append);
    }
  }

  lemma FailedKeeps(g: Geometry, a: Image, b: Image, c: Image, dir: nat, name: Name, e: Slot, k: nat, zeros: seq<Slot>, append: bool)
    requires DirOk(g, a, dir) && Opened(g, a, b, dir, name, e, k, zeros) && !IsDir(e) && Unwritten(g, b, c, e, append)
    ensures Keeps(g, a, c, {dir, StartOf(g, a, dir, name)})
  {
    OpenedEntry(g, a, b, dir, name, e, k, zeros, true);
    assert Keeps(g, a, b, {dir});
    KeepsMore(g, a, b, c, dir, FirstCluster(e));
  }

  lemma FailedHidden(g: Geometry, a: Image, b: Image, c: Image, dir: nat, name: Name, e: Slot, k: nat, zeros: seq<Slot>, append: bool)
    requires DirOk(g, a, dir) && PlainName(name) && Opened(g, a, b, dir, name, e, k, zeros) && 0 !in a.chains
    requires Lookup(DirSlots(g, a.disk, a.chains, dir), name) == None && !Visible(name) && Unwritten(g, b, c, e, append)
    ensures DirOk(g, c, dir) && forall n :: File(g, c, dir, n) == File(g, a, dir, n)
  {
    NewEntryFields(Short(name), FILE_ATTR);
    ShortFirst(name);
    KeepsMore(g, a, b, c, dir, 0);
    assert Keeps(g, a, c, {dir});
    assert KeepsChain(g, b, c, dir);
    HiddenOk(g, a, c, dir, zeros, k, e);
    forall n: Name
      ensures File(g, c, dir, n) == File(g, a, dir, n)
    {
      HiddenFile(g, a, c, dir, zeros, k, e, n);
    }
  }

  // ----- Strict directories stay strict -----

  /** The tables are those of the image. */
  ghost predicate ImageOk(g: Geometry, m: Image, fat: seq<nat>) {
    Mirrored(g, m.disk, fat) && Sound(fat, m.chains)
  }

  lemma DirLength(g: Geometry, m: Image, fat: seq<nat>, dir: nat)
    requires ImageOk(g, m, fat) && dir in m.chains
    ensures Clusters(g, m.chains[dir]) && |DirSlots(g, m.disk, m.chains, dir)| == PER_SECTOR_SLOTS * (|m.chains[dir]| * g.spc)
  {
    ChainSectors(g, m.disk, fat, m.chains[dir]);
    SectorsCount(g, m.chains[dir]);
  }

  lemma StartPlace(g: Geometry, cs: seq<nat>, n: nat)
    requires Clusters(g, cs) && n <= |cs|
    ensures StartSlot(g, cs, n) == PER_SECTOR_SLOTS * (n * g.spc)
  {
    SectorsCount(g, cs[..n]);
  }

  /** A longer directory has the clusters of the shorter one where they were. */
  lemma StartsWithin(g: Geometry, a: Image, fa: seq<nat>, b: Image, fb: seq<nat>, dir: nat, x: nat)
    requires ImageOk(g, a, fa) && ImageOk(g, b, fb) && dir in a.chains && dir in b.chains
    requires x in DirStarts(g, b.chains, dir) && x <= |DirSlots(g, a.disk, a.chains, dir)|
    ensures x in DirStarts(g, a.chains, dir)
  {
    DirLength(g, a, fa, dir);
    DirLength(g, b, fb, dir);
    var n :| 0 <= n <= |b.chains[dir]| && x == StartSlot(g, b.chains[dir], n);
    StartPlace(g, b.chains[dir], n);
    if n > |a.chains[dir]| {
      Arith.MulGap(|a.chains[dir]|, n, g.spc);
    } else {
      StartPlace(g, a.chains[dir], n);
    }
  }

  /** The slots of long names are the same, and what is new is none of them. */
  lemma CreatedLongs(was: seq<Slot>, now: seq<Slot>, zeros: seq<Slot>, k: nat, e: Slot)
    requires Created(was, now, zeros, k, e) && !Long(e)
    ensures |was| <= |now| && (forall i :: 0 <= i < |now| && Long(now[i]) ==> i < |was| && was[i] == now[i])
    ensures forall i :: 0 < i < |was| && Long(was[i]) && Long(now[i]) && Long(was[i - 1]) ==> Long(now[i - 1])
  {
    assert forall i :: 0 <= i < |was| && i != k ==> now[i] == was[i];
    assert forall i :: |was| <= i < |now| && i != k ==> Free(now[i]);
  }

  lemma CreatedNeat(g: Geometry, a: Image, fa: seq<nat>, b: Image, fb: seq<nat>, dir: nat, zeros: seq<Slot>, k: nat, e: Slot)
    requires ImageOk(g, a, fa) && ImageOk(g, b, fb) && dir in a.chains && dir in b.chains && !Long(e)
    requires Created(DirSlots(g, a.disk, a.chains, dir), DirSlots(g, b.disk, b.chains, dir), zeros, k, e)
    requires Neat(DirStarts(g, a.chains, dir), DirSlots(g, a.disk, a.chains, dir))
    ensures Neat(DirStarts(g, b.chains, dir), DirSlots(g, b.disk, b.chains, dir))
  {
    var was, now := DirSlots(g, a.disk, a.chains, dir), DirSlots(g, b.disk, b.chains, dir);
    var starts, more := DirStarts(g, a.chains, dir), DirStarts(g, b.chains, dir);
    CreatedLongs(was, now, zeros, k, e);
    forall x | x in more && x <= |now|
      ensures x in starts || x == 0 || !Long(now[x - 1])
    {
      if x <= |was| {
        StartsWithin(g, a, fa, b, fb, dir, x);
      }
    }
    StillNeat(starts, more, was, now);
  }

  lemma CreatedOnlyOne(was: seq<Slot>, now: seq<Slot>, zeros: seq<Slot>, k: nat, e: Slot, name: Name)
    requires InOrder(was) && Unambiguous(was) && Lookup(was, name) == None && Created(was, now, zeros, k, e)
    requires GoesBy(e, name) || e[0] == DELETED
    ensures Unambiguous(now)
  {
    var full := was + zeros;
    FilledAfter(was, now, zeros, k, e, name);
    GrownUnambiguous(was, zeros);
    if e[0] == DELETED {
      HiddenUnambiguous(full, k, e);
    } else {
      LookupSame(full, ShortName(e), name);
      CreatedUnambiguous(full, e);
    }
  }

  /** The new entry goes by its name, or reads as deleted. */
  lemma SeenOrHidden(name: Name, attr: Byte)
    requires PlainName(name) && attr != LONG_ATTR
    ensures var e := NewEntry(Short(name), attr); if Visible(name) then GoesBy(e, name) else e[0] == DELETED
  {
    if Visible(name) {
      NewEntryGoesBy(name, attr);
    } else {
      NewEntryFields(Short(name), attr);
      ShortFirst(name);
    }
  }

  lemma OpenedStrict(g: Geometry, a: Image, fa: seq<nat>, b: Image, fb: seq<nat>, dir: nat, name: Name, e: Slot, k: nat, zeros: seq<Slot>)
    requires DirOk(g, a, dir) && Strict(g, a, dir) && Nameable(g, a, dir, name) && Opened(g, a, b, dir, name, e, k, zeros)
    requires ImageOk(g, a, fa) && ImageOk(g, b, fb)
    ensures Strict(g, b, dir)
  {
    var was := DirSlots(g, a.disk, a.chains, dir);
    if Lookup(was, name).None? {
      NewEntryFields(Short(name), FILE_ATTR);
      SeenOrHidden(name, FILE_ATTR);
      CreatedOnlyOne(was, DirSlots(g, b.disk, b.chains, dir), zeros, k, e, name);
      CreatedNeat(g, a, fa, b, fb, dir, zeros, k, e);
    }
  }

  /** Rewriting a slot under its name keeps the directory strict. */
  lemma RewrittenStrict(g: Geometry, b: Image, c: Image, dir: nat, k: nat, e2: Slot)
    requires Strict(g, b, dir) && k < |DirSlots(g, b.disk, b.chains, dir)| && ChainAt(c.chains, dir) == ChainAt(b.chains, dir)
    requires DirSlots(g, c.disk, c.chains, dir) == DirSlots(g, b.disk, b.chains, dir)[k := e2]
    requires !Long(DirSlots(g, b.disk, b.chains, dir)[k]) && e2[..12] == DirSlots(g, b.disk, b.chains, dir)[k][..12]
    ensures Strict(g, c, dir)
  {
    var slots := DirSlots(g, b.disk, b.chains, dir);
    SameHeader(slots[k], e2);
    if Live(slots[k]) {
      UpdatedUnambiguous(slots, k, e2);
    } else {
      HiddenUnambiguous(slots, k, e2);
    }
    StillNeat(DirStarts(g, b.chains, dir), DirStarts(g, b.chains, dir), slots, slots[k := e2]);
  }

  /** No room for the entry, or an entry that is a directory: the write cannot succeed. */
  lemma CannotWrite(g: Geometry, a: Image, fat: seq<nat>, dir: nat, name: Name, data: seq<Byte>, append: bool)
    requires g.spc > 0 && Sound(fat, a.chains) && EntryTakes(g, a, dir, name) > |Unused(fat, g.total)|
    ensures !CanWrite(g, a, fat, dir, name, data, append)
  {
    NoZeroChain(fat, a.chains);
    FreedNothing(fat);
  }

  lemma IsDirectory(g: Geometry, a: Image, b: Image, fat: seq<nat>, dir: nat, name: Name, e: Slot, k: nat, zeros: seq<Slot>,
                    data: seq<Byte>, append: bool)
    requires g.spc > 0 && Opened(g, a, b, dir, name, e, k, zeros) && IsDir(e)
    ensures !CanWrite(g, a, fat, dir, name, data, append) && !NoDirectory(g, a, dir, name) && b == a
    ensures Lookup(DirSlots(g, a.disk, a.chains, dir), name).Some?
  {
  }

  /**
   * `fat_write_file`: a write replaces what the file held, an append goes on after it. When a write runs out of
   * clusters, a file that was being overwritten is lost: its entry names clusters that were given back.
   */
  method WriteFile(v: Volume, dir: nat, name: Name, data: seq<Byte>, append: bool) returns (ok: bool, lost: bool)
    requires v.Valid() && DirOk(v.g, ImageOf(v), dir) && Nameable(v.g, ImageOf(v), dir, name)
    requires Fits(v.g, |HeldBefore(v.g, ImageOf(v), dir, name, append)|, |data|)
    modifies v, v.disk
    ensures v.Valid() && v.lost == old(v.lost)
    ensures ok <==> CanWrite(v.g, old(ImageOf(v)), old(v.fat), dir, name, data, append)
    ensures lost <==> !ok && Overwrites(v.g, old(ImageOf(v)), dir, name, append)
    ensures ok ==> Wrote(v.g, old(ImageOf(v)), ImageOf(v), dir, name, HeldBefore(v.g, old(ImageOf(v)), dir, name, append) + data)
    ensures !ok ==> Failed(v.g, old(ImageOf(v)), ImageOf(v), dir, name, append,
                           old(EntryTakes(v.g, ImageOf(v), dir, name)) <= old(v.Spare()))
    ensures old(Strict(v.g, ImageOf(v), dir)) ==> Strict(v.g, ImageOf(v), dir)
  {
    ghost var a, fat := ImageOf(v), v.fat;
    var e, cluster, offset;
    ghost var at, k, zeros;
    ok, e, cluster, offset, at, k, zeros := FindOrCreate(v, dir, name);
    lost := false;
    if !ok {
      CannotWrite(v.g, a, fat, dir, name, data, append);
      NothingFailed(v.g, a, dir, name, append, false);
      return;
    }
    if IsDir(e) {
      IsDirectory(v.g, a, ImageOf(v), fat, dir, name, e, k, zeros, data, append);
      NothingFailed(v.g, a, dir, name, append, true);
      return false, false;
    }
    assert NoDirectory(v.g, a, dir, name);
    ok := Store(v, dir, name, e, cluster, offset, data, append, a, fat, at, k, zeros);
    lost := !ok && !append && FirstCluster(e) != 0;
  }

  /** The part of `fat_write_file` that follows once the entry is there. */
  method Store(v: Volume, dir: nat, name: Name, e: Slot, cluster: nat, offset: nat, data: seq<Byte>, append: bool,
               ghost a: Image, ghost fat: seq<nat>, ghost at: Spot, ghost k: nat, ghost zeros: seq<Slot>) returns (ok: bool)
    requires v.Valid() && DirOk(v.g, a, dir) && Nameable(v.g, a, dir, name)
    requires Opened(v.g, a, ImageOf(v), dir, name, e, k, zeros) && !IsDir(e)
    requires Place(v.g, v.chains[dir], at, cluster, offset, k) && Fits(v.g, |HeldBefore(v.g, a, dir, name, append)|, |data|)
    requires ImageOk(v.g, a, fat) && EntryTakes(v.g, a, dir, name) + v.Spare() == |Unused(fat, v.g.total)|
    requires Lookup(DirSlots(v.g, a.disk, a.chains, dir), name).Some? ==> v.fat == fat
    modifies v, v.disk
    ensures v.Valid() && v.lost == old(v.lost) && FirstCluster(e) == StartOf(v.g, a, dir, name)
    ensures ok <==> RoomFor(v.g, a, fat, dir, name, |HeldBefore(v.g, a, dir, name, append) + data|, append)
    ensures ok ==> Wrote(v.g, a, ImageOf(v), dir, name, HeldBefore(v.g, a, dir, name, append) + data)
    ensures !ok ==> Failed(v.g, a, ImageOf(v), dir, name, append, true)
    ensures Strict(v.g, a, dir) ==> Strict(v.g, ImageOf(v), dir)
  {
    ghost var b, bytes := ImageOf(v), HeldBefore(v.g, a, dir, name, append) + data;
    OpenedEntry(v.g, a, b, dir, name, e, k, zeros, append);
    NotTheDirectory(v.g, v.fat, b, dir, e);
    RoomLeft(v.g, a, fat, v.chains, v.fat, dir, name, FirstCluster(e), |bytes|, append);
    ghost var room := HasRoom(v.g, v.fat, v.chains, FirstCluster(e), |bytes|, append);
    ghost var e2, fb := e, v.fat;
    ok, e2 := StoreBytes(v, dir, e, cluster, offset, data, append, at, k, bytes);
    assert ok <==> room;
    StoreEnds(v.g, a, fat, b, fb, ImageOf(v), dir, name, e, e2, k, zeros, bytes, append, ok);
  }

  lemma StoreEnds(g: Geometry, a: Image, fa: seq<nat>, b: Image, fb: seq<nat>, c: Image, dir: nat, name: Name, e: Slot, e2: Slot, k: nat,
                  zeros: seq<Slot>, bytes: seq<Byte>, append: bool, ok: bool)
    requires DirOk(g, a, dir) && Nameable(g, a, dir, name) && Opened(g, a, b, dir, name, e, k, zeros) && !IsDir(e)
    requires ImageOk(g, a, fa) && ImageOk(g, b, fb) && dir != FirstCluster(e)
    requires if ok then Stored(g, b, c, dir, k, e, e2, bytes) else Unwritten(g, b, c, e, append)
    ensures ok ==> Wrote(g, a, c, dir, name, bytes)
    ensures !ok ==> Failed(g, a, c, dir, name, append, true)
    ensures Strict(g, a, dir) ==> Strict(g, c, dir)
  {
    if Strict(g, a, dir) {
      OpenedStrict(g, a, fa, b, fb, dir, name, e, k, zeros);
    }
    if ok {
      WriteDone(g, a, b, c, fa, dir, name, e, e2, k, zeros, bytes);
      StoredStrict(g, a, b, c, dir, name, e, e2, k, zeros, bytes);
    } else {
      StoreFailed(g, a, b, c, fa, dir, name, e, k, zeros, append);
      assert KeepsChain(g, b, c, dir);
    }
  }

  lemma StoredStrict(g: Geometry, a: Image, b: Image, c: Image, dir: nat, name: Name, e: Slot, e2: Slot, k: nat, zeros: seq<Slot>,
                     bytes: seq<Byte>)
    requires Opened(g, a, b, dir, name, e, k, zeros) && Stored(g, b, c, dir, k, e, e2, bytes)
    ensures Strict(g, b, dir) ==> Strict(g, c, dir)
  {
    if Strict(g, b, dir) {
      NewEntryFields(Short(name), FILE_ATTR);
      FoundLive(DirSlots(g, a.disk, a.chains, dir), name);
      RewrittenStrict(g, b, c, dir, k, e2);
    }
  }

  lemma WriteDone(g: Geometry, a: Image, b: Image, c: Image, fat: seq<nat>, dir: nat, name: Name, e: Slot, e2: Slot, k: nat,
                  zeros: seq<Slot>, bytes: seq<Byte>)
    requires DirOk(g, a, dir) && Nameable(g, a, dir, name) && Opened(g, a, b, dir, name, e, k, zeros) && !IsDir(e) && Sound(fat, a.chains)
    requires Stored(g, b, c, dir, k, e, e2, bytes)
    ensures Wrote(g, a, c, dir, name, bytes)
  {
    WriteKeeps(g, a, b, c, dir, name, e, e2, k, zeros, bytes);
    if Lookup(DirSlots(g, a.disk, a.chains, dir), name).Some? || Visible(name) {
      WriteSeen(g, a, b, c, dir, name, e, e2, k, zeros, bytes);
    } else {
      NoZeroChain(fat, a.chains);
      WriteHidden(g, a, b, c, dir, name, e, e2, k, zeros, bytes);
    }
  }

  lemma WriteKeeps(g: Geometry, a: Image, b: Image, c: Image, dir: nat, name: Name, e: Slot, e2: Slot, k: nat, zeros: seq<Slot>,
                   bytes: seq<Byte>)
    requires DirOk(g, a, dir) && Opened(g, a, b, dir, name, e, k, zeros) && !IsDir(e) && Stored(g, b, c, dir, k, e, e2, bytes)
    ensures Keeps(g, a, c, {dir, StartOf(g, a, dir, name)})
    ensures Lookup(DirSlots(g, a.disk, a.chains, dir), name).Some? <==> File(g, a, dir, name).Some?
  {
    OpenedEntry(g, a, b, dir, name, e, k, zeros, false);
    assert Keeps(g, a, b, {dir});
    KeepsMore(g, a, b, c, dir, FirstCluster(e));
  }

  /** What was written is what is read, unless the name is a new one that reads as deleted. */
  method WriteThenRead(v: Volume, dir: nat, name: Name, data: seq<Byte>) returns (ok: bool, read: Option<seq<Byte>>)
    requires v.Valid() && DirOk(v.g, ImageOf(v), dir) && Nameable(v.g, ImageOf(v), dir, name) && Fits(v.g, 0, |data|)
    modifies v, v.disk
    ensures ok <==> CanWrite(v.g, old(ImageOf(v)), old(v.fat), dir, name, data, false)
    ensures ok ==> read == if old(File(v.g, ImageOf(v), dir, name)).Some? || Visible(name) then Some(data) else None
  {
    var lost;
    ok, lost := WriteFile(v, dir, name, data, false);
    read := None;
    if ok {
      WroteAnew(v.g, old(ImageOf(v)), ImageOf(v), dir, name, data);
      read := ReadFile(v, dir, name, true);
    }
  }

  lemma WroteAnew(g: Geometry, a: Image, b: Image, dir: nat, name: Name, data: seq<Byte>)
    requires Wrote(g, a, b, dir, name, HeldBefore(g, a, dir, name, false) + data)
    ensures DirOk(g, b, dir)
    ensures File(g, b, dir, name) == if File(g, a, dir, name).Some? || Visible(name) then Some(data) else None
  {
    assert [] + data == data;
  }
}
