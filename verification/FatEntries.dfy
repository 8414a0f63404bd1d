/**
 * The entries of a FAT32 directory as a sequence of slots: the name each goes by, which entry a name finds,
 * and what creating, rewriting and deleting an entry do to what every name finds. The two searches of the
 * driver, slot by slot, are compared with that.
 */
module FatEntries {
  import opened Basics
  import opened FatNames
  import opened FatVolume

  const DELETED: Byte := 0xE5

  type Slot = s: seq<Byte> | |s| == 32 witness seq(32, _ => 0)

  // ----- Entries -----

  predicate IsDir(e: Slot) {
    e[11] / 16 % 2 == 1
  }

  function FirstCluster(e: Slot): nat {
    Le16(e, 20) as nat * 0x1_0000 + Le16(e, 26) as nat
  }

  function Size(e: Slot): nat {
    Le32(e, 28)
  }

  /** The entry with another first cluster and size. */
  function WithFile(e: Slot, c: nat, size: nat): (r: Slot)
    requires c < WORD && size < WORD
    ensures r[..12] == e[..12] && IsDir(r) == IsDir(e)
  {
    var hi, lo := c / 0x1_0000, c % 0x1_0000;
    var f := e[20 := hi % 256][21 := hi / 256][26 := lo % 256][27 := lo / 256];
    SetLe32(f, 28, size)
  }

  /** The low half of the cluster is at byte 26, the high half at 20, the size at 28, each with the lowest
      byte first; bit 4 of the attributes at 11 marks a directory. */
  lemma EntryBytes(e: Slot)
    ensures FirstCluster(e) ==
      e[26] as nat + 0x100 * e[27] as nat + 0x1_0000 * e[20] as nat + 0x100_0000 * e[21] as nat
    ensures Size(e) ==
      e[28] as nat + 0x100 * e[29] as nat + 0x1_0000 * e[30] as nat + 0x100_0000 * e[31] as nat
    ensures IsDir(e) <==> e[11] % 32 >= 16
  {
  }

  lemma FileFields(e: Slot, c: nat, size: nat)
    requires c < WORD && size < WORD
    ensures FirstCluster(WithFile(e, c, size)) == c && Size(WithFile(e, c, size)) == size
  {
    var hi, lo := c / 0x1_0000, c % 0x1_0000;
    var f := e[20 := hi % 256][21 := hi / 256][26 := lo % 256][27 := lo / 256];
    Le32RoundTrip(f, 28, size);
    var r := WithFile(e, c, size);
    assert Le16(r, 20) == hi && Le16(r, 26) == lo;
  }

  /** A fresh entry: everything but the name and the attributes is zero. */
  function NewEntry(short: Name, attr: Byte): Slot
    requires |short| == 11
  {
    short + [attr] + seq(20, _ => 0)
  }

  lemma NewEntryFields(short: Name, attr: Byte)
    requires |short| == 11
    ensures FirstCluster(NewEntry(short, attr)) == 0 && Size(NewEntry(short, attr)) == 0
    ensures NewEntry(short, attr)[..11] == short
  {
  }

  /** The entry with the mark of a deleted one. */
  function AsDeleted(e: Slot): (r: Slot)
    ensures r[0] == DELETED && r[1..] == e[1..]
  {
    e[0 := DELETED]
  }

  predicate Free(e: Slot) {
    e[0] == 0x00 || e[0] == DELETED
  }

  predicate Long(e: Slot) {
    !Free(e) && e[11] == LONG_ATTR
  }

  predicate Live(e: Slot) {
    !Free(e) && e[11] != LONG_ATTR
  }

  /** The name an entry goes by, after the long name collected before it. */
  function NameOf(e: Slot, lfn: Name): Name {
    if lfn != [] then lfn else CString(Listed(e[..11]))
  }

  /** The name in the entry itself. */
  function ShortName(e: Slot): Name {
    CString(Listed(e[..11]))
  }

  // ----- What a name finds -----

  /** How the slots of a long name are put together does not matter to where they stand. */
  type Collector = (Slot, Name) -> Name

  function Collecting(): Collector {
    (e: Slot, lfn: Name) => Collect(e, lfn)
  }

  ghost function LongBy(put: Collector, cut: set<nat>, slots: seq<Slot>, j: nat): Name
    requires j <= |slots|
  {
    if j == 0 || j in cut || !Long(slots[j - 1]) then [] else put(slots[j - 1], LongBy(put, cut, slots, j - 1))
  }

  /**
   * The long name that stands before slot `j`, without what is before the slots in `cut`, where it is
   * forgotten.
   */
  ghost function LongBefore(cut: set<nat>, slots: seq<Slot>, j: nat): Name
    requires j <= |slots|
  {
    LongBy(Collecting(), cut, slots, j)
  }

  ghost function NameAt(cut: set<nat>, slots: seq<Slot>, j: nat): Name
    requires j < |slots|
  {
    NameOf(slots[j], LongBefore(cut, slots, j))
  }

  /** Slot `j` holds an entry that goes by this name. */
  ghost predicate Answers(cut: set<nat>, slots: seq<Slot>, j: nat, name: Name)
    requires j < |slots|
  {
    Live(slots[j]) && SameName(NameAt(cut, slots, j), name)
  }

  /** Which slots answer to a name, and which of them end a search. */
  ghost function Hits(cut: set<nat>, slots: seq<Slot>, name: Name): (r: seq<bool>)
    ensures |r| == |slots| && forall j :: 0 <= j < |slots| ==> r[j] == Answers(cut, slots, j, name)
  {
    seq(|slots|, j requires 0 <= j < |slots| => Answers(cut, slots, j, name))
  }

  ghost function Ends(slots: seq<Slot>): (r: seq<bool>)
    ensures |r| == |slots| && forall j :: 0 <= j < |slots| ==> r[j] == (slots[j][0] == 0x00)
  {
    seq(|slots|, j requires 0 <= j < |slots| => slots[j][0] == 0x00)
  }

  /** The first hit from slot `k` on, before any end. */
  ghost function First(ends: seq<bool>, hits: seq<bool>, k: nat): (r: Option<nat>)
    requires |ends| == |hits|
    ensures r.Some? ==> k <= r.value < |hits| && hits[r.value]
    ensures r.Some? ==> forall i :: k <= i <= r.value ==> !ends[i] && (i < r.value ==> !hits[i])
    decreases |hits| - k
  {
    if k >= |hits| || ends[k] then None else if hits[k] then Some(k) else First(ends, hits, k + 1)
  }

  ghost function LookupIn(cut: set<nat>, slots: seq<Slot>, name: Name): (r: Option<nat>)
    ensures r.Some? ==> r.value < |slots|
  {
    First(Ends(slots), Hits(cut, slots, name), 0)
  }

  /** The entry that a name finds: the first one that goes by it, before the first zero slot. */
  ghost function Lookup(slots: seq<Slot>, name: Name): (r: Option<nat>)
    ensures r.Some? ==> r.value < |slots|
  {
    LookupIn({}, slots, name)
  }

  /** The next entry of that name from slot `k` on. */
  ghost function LookupFrom(slots: seq<Slot>, name: Name, k: nat): Option<nat> {
    First(Ends(slots), Hits({}, slots, name), k)
  }

  /** The next entry of the same name, if there is one. */
  ghost function NextOf(slots: seq<Slot>, name: Name): Option<nat> {
    var r := Lookup(slots, name);
    if r.None? then None else LookupFrom(slots, name, r.value + 1)
  }

  lemma {:induction false} FirstNone(ends: seq<bool>, hits: seq<bool>, k: nat, j: nat)
    requires |ends| == |hits| && First(ends, hits, k) == None && k <= j < |hits| && forall i :: k <= i <= j ==> !ends[i]
    ensures !hits[j]
    decreases j - k
  {
    if k == j {
    } else {
      FirstNone(ends, hits, k + 1, j);
    }
  }

  lemma {:induction false} FirstSkip(ends: seq<bool>, hits: seq<bool>, k: nat, j: nat)
    requires |ends| == |hits| && k <= j <= |hits| && forall i :: k <= i < j ==> !ends[i] && !hits[i]
    ensures First(ends, hits, k) == First(ends, hits, j)
    decreases j - k
  {
    if k == j {
    } else {
      FirstSkip(ends, hits, k + 1, j);
    }
  }

  /** Only what is from slot `k` on matters. */
  lemma {:induction false} FirstTail(ends: seq<bool>, hits: seq<bool>, ends': seq<bool>, hits': seq<bool>, k: nat)
    requires |ends| == |hits| == |ends'| == |hits'| && forall i :: k <= i < |ends| ==> ends[i] == ends'[i] && hits[i] == hits'[i]
    ensures First(ends, hits, k) == First(ends', hits', k)
    decreases |hits| - k
  {
    if k >= |hits| {
    } else {
      FirstTail(ends, hits, ends', hits', k + 1);
    }
  }

  /** Nothing is hit before slot `k`, unless what is found is before it. */
  lemma NoneBefore(ends: seq<bool>, hits: seq<bool>, k: nat)
    requires |ends| == |hits| && k <= |hits| && (forall i :: 0 <= i < k ==> !ends[i])
    requires var r := First(ends, hits, 0); r.Some? ==> r.value >= k
    ensures forall i :: 0 <= i < k ==> !hits[i]
    ensures First(ends, hits, 0) == First(ends, hits, k)
  {
    forall i | 0 <= i < k
      ensures !hits[i]
    {
      if First(ends, hits, 0).None? {
        FirstNone(ends, hits, 0, i);
      }
    }
    FirstSkip(ends, hits, 0, k);
  }

  /** One slot, which no end comes before, is changed to one that is no end. */
  lemma FirstChanged(ends: seq<bool>, hits: seq<bool>, k: nat, hit: bool)
    requires |ends| == |hits| && k < |hits| && forall i :: 0 <= i < k ==> !ends[i]
    ensures var r := First(ends, hits, 0);
            First(ends[k := false], hits[k := hit], 0) ==
            if r.Some? && r.value < k then r else if hit then Some(k) else First(ends, hits, k + 1)
  {
    var ends', hits' := ends[k := false], hits[k := hit];
    var r := First(ends, hits, 0);
    if r.Some? && r.value < k {
      FirstSkip(ends', hits', 0, r.value);
    } else {
      NoneBefore(ends, hits, k);
      FirstSkip(ends', hits', 0, k);
      FirstTail(ends, hits, ends', hits', k + 1);
    }
  }

  lemma {:induction false} FirstGrown(ends: seq<bool>, hits: seq<bool>, ends': seq<bool>, hits': seq<bool>, k: nat)
    requires |ends| == |hits| && |ends'| == |hits'| && ends <= ends' && hits <= hits' && k <= |hits|
    requires forall i :: |ends| <= i < |ends'| ==> ends'[i]
    ensures First(ends, hits, k) == First(ends', hits', k)
    decreases |hits| - k
  {
    if k == |hits| {
    } else {
      FirstGrown(ends, hits, ends', hits', k + 1);
    }
  }

  /** What is found is an entry in use that goes by the name. */
  lemma FoundLive(slots: seq<Slot>, name: Name)
    ensures Lookup(slots, name).Some? ==>
              Live(slots[Lookup(slots, name).value]) && Answers({}, slots, Lookup(slots, name).value, name)
  {
  }

  /** The case of letters does not matter. */
  lemma LookupSame(slots: seq<Slot>, a: Name, b: Name)
    requires SameName(a, b)
    ensures Lookup(slots, a) == Lookup(slots, b)
  {
    forall j | 0 <= j < |slots|
      ensures Answers({}, slots, j, a) == Answers({}, slots, j, b)
    {
      SameNames(NameAt({}, slots, j), a, b);
    }
    assert Hits({}, slots, a) == Hits({}, slots, b);
  }

  lemma SameNames(n: Name, a: Name, b: Name)
    requires SameName(a, b)
    ensures SameName(n, a) <==> SameName(n, b)
  {
  }

  /** Two names found at the same entry are the same name. */
  lemma SameHit(slots: seq<Slot>, a: Name, b: Name)
    requires Lookup(slots, a).Some? && Lookup(slots, a) == Lookup(slots, b)
    ensures SameName(a, b)
  {
    FoundLive(slots, a);
    FoundLive(slots, b);
    SameNameTransitive(NameAt({}, slots, Lookup(slots, a).value), a, b);
  }

  /** An entry that no zero slot comes before is found by its name, or an earlier one is. */
  lemma Reachable(slots: seq<Slot>, j: nat, name: Name)
    requires j < |slots| && NoZero(slots, j) && Answers({}, slots, j, name)
    ensures Lookup(slots, name).Some? && Lookup(slots, name).value <= j
  {
    var ends, hits := Ends(slots), Hits({}, slots, name);
    assert forall i :: 0 <= i <= j ==> !ends[i];
    if First(ends, hits, 0).None? {
      FirstNone(ends, hits, 0, j);
    }
  }

  /** No slot before `k` is zero. */
  ghost predicate NoZero(slots: seq<Slot>, k: nat) {
    forall i :: 0 <= i < k && i < |slots| ==> slots[i][0] != 0x00
  }

  // ----- The searches of the driver -----

  /** What one slot means to a search: its end, the entry looked for, or the long name to go on with. */
  datatype Look = Stop | Hit | Pass(lfn: Name)

  function LookAt(e: Slot, lfn: Name, name: Name): Look {
    if e[0] == 0x00 then Stop
    else if e[0] == DELETED then Pass([])
    else if e[11] == LONG_ATTR then Pass(Collect(e, lfn))
    else if SameName(NameOf(e, lfn), name) then Hit
    else Pass([])
  }

  /** A way of looking at slots; which name is looked for does not matter to the walk through them. */
  type Looker = (Slot, Name) -> Look

  function LookFor(name: Name): Looker {
    (e: Slot, lfn: Name) => LookAt(e, lfn, name)
  }

  ghost predicate Seen(e: Slot, lfn: Name) {
    |e| == 32 && |lfn| >= 0
  }

  /** `look` looks for `name`; what that comes to for a slot is said only of slots that are `Seen`. */
  ghost predicate Seeks(look: Looker, name: Name) {
    forall e: Slot, lfn: Name {:trigger Seen(e, lfn)} :: Seen(e, lfn) ==> look(e, lfn) == LookAt(e, lfn, name)
  }

  lemma SeeksFor(name: Name)
    ensures Seeks(LookFor(name), name)
  {
  }

  /** The name of an entry is copied to a buffer of this size, whatever its length. */
  const NAME_BUFFER := 64

  predicate TooLong(e: Slot, lfn: Name) {
    Live(e) && |lfn| >= NAME_BUFFER
  }

  /** The long name that is gone on with at slot `k`: none where it is forgotten. */
  function Carried(cut: set<nat>, k: nat, lfn: Name): Name {
    if k in cut then [] else lfn
  }

  datatype Sought = Absent | Present(k: nat) | Overrun

  /** A search from slot `k` on, the long name so far being `lfn`: it ends where a name overruns the buffer. */
  function Seek(look: Looker, cut: set<nat>, slots: seq<Slot>, k: nat, lfn: Name): (r: Sought)
    ensures r.Present? ==> k <= r.k < |slots|
    decreases |slots| - k
  {
    if k >= |slots| then Absent
    else if TooLong(slots[k], Carried(cut, k, lfn)) then Overrun
    else
      var l := look(slots[k], Carried(cut, k, lfn));
      if l.Pass? then Seek(look, cut, slots, k + 1, l.lfn) else if l.Hit? then Present(k) else Absent
  }

  /** The search comes to slot `j`, and the long name that stands before it there does not fit the buffer. */
  ghost predicate OverrunAt(cut: set<nat>, slots: seq<Slot>, k: nat, name: Name, j: nat) {
    && k <= j < |slots| && TooLong(slots[j], LongBefore(cut, slots, j))
    && forall i :: k <= i < j ==> slots[i][0] != 0x00 && !Answers(cut, slots, i, name)
  }

  ghost predicate Overruns(cut: set<nat>, slots: seq<Slot>, name: Name) {
    exists j: nat :: OverrunAt(cut, slots, 0, name, j)
  }

  ghost predicate OverrunsFrom(cut: set<nat>, slots: seq<Slot>, k: nat, name: Name) {
    exists j: nat :: OverrunAt(cut, slots, k, name, j)
  }

  function AsSought(r: Option<nat>): Sought {
    if r.Some? then Present(r.value) else Absent
  }

  /** What a slot is taken for depends on the long name before it only. */
  lemma LookAnswers(cut: set<nat>, slots: seq<Slot>, k: nat, name: Name)
    requires k < |slots|
    ensures var l := LookFor(name)(slots[k], LongBefore(cut, slots, k));
            && (l.Stop? <==> Ends(slots)[k]) && (l.Hit? <==> Hits(cut, slots, name)[k] && !Ends(slots)[k])
            && (l.Pass? ==> !Hits(cut, slots, name)[k] && Carried(cut, k + 1, l.lfn) == LongBefore(cut, slots, k + 1))
  {
    assert Hits(cut, slots, name)[k] == Answers(cut, slots, k, name);
  }

  lemma OverrunNext(cut: set<nat>, slots: seq<Slot>, k: nat, name: Name)
    requires k < |slots| && !TooLong(slots[k], LongBefore(cut, slots, k))
    ensures OverrunsFrom(cut, slots, k, name) <==>
            slots[k][0] != 0x00 && !Answers(cut, slots, k, name) && OverrunsFrom(cut, slots, k + 1, name)
  {
    if OverrunsFrom(cut, slots, k, name) {
      var j: nat :| OverrunAt(cut, slots, k, name, j);
      assert OverrunAt(cut, slots, k + 1, name, j);
    }
    if slots[k][0] != 0x00 && !Answers(cut, slots, k, name) && OverrunsFrom(cut, slots, k + 1, name) {
      var j: nat :| OverrunAt(cut, slots, k + 1, name, j);
      assert OverrunAt(cut, slots, k, name, j);
    }
  }

  lemma {:induction false} SeekFrom(cut: set<nat>, slots: seq<Slot>, k: nat, lfn: Name, name: Name)
    requires k <= |slots| && Carried(cut, k, lfn) == LongBefore(cut, slots, k)
    ensures Seek(LookFor(name), cut, slots, k, lfn) ==
            if OverrunsFrom(cut, slots, k, name) then Overrun else AsSought(First(Ends(slots), Hits(cut, slots, name), k))
    decreases |slots| - k
  {
    if k == |slots| {
    } else if TooLong(slots[k], LongBefore(cut, slots, k)) {
      assert OverrunAt(cut, slots, k, name, k);
    } else {
      LookAnswers(cut, slots, k, name);
      OverrunNext(cut, slots, k, name);
      var l := LookFor(name)(slots[k], Carried(cut, k, lfn));
      if l.Pass? {
        SeekFrom(cut, slots, k + 1, l.lfn, name);
      }
    }
  }

  /**
   * A search that forgets the long name at the slots in `cut` overruns its buffer exactly when it comes to an
   * entry with 64 bytes or more of long name before it, and finds the right entry otherwise.
   */
  lemma SeekExactly(cut: set<nat>, slots: seq<Slot>, name: Name)
    ensures Seek(LookFor(name), cut, slots, 0, []) ==
            if Overruns(cut, slots, name) then Overrun else AsSought(LookupIn(cut, slots, name))
  {
    SeekFrom(cut, slots, 0, [], name);
    assert Overruns(cut, slots, name) <==> OverrunsFrom(cut, slots, 0, name);
  }

  /** Every long name fits the buffer. */
  ghost predicate Fitting(slots: seq<Slot>) {
    forall j :: 0 <= j < |slots| ==> !TooLong(slots[j], LongBefore({}, slots, j))
  }

  lemma {:induction false} CutIsShorter(cut: set<nat>, slots: seq<Slot>, j: nat)
    requires j <= |slots|
    ensures |LongBefore(cut, slots, j)| <= |LongBefore({}, slots, j)| <= 255
  {
    if j == 0 || !Long(slots[j - 1]) {
    } else {
      CutIsShorter(cut, slots, j - 1);
      CollectShorter(slots[j - 1], LongBefore({}, slots, j - 1), LongBefore(cut, slots, j - 1));
      LongBeforeMore({}, slots, j, LongBefore({}, slots, j - 1));
      if j !in cut {
        LongBeforeMore(cut, slots, j, LongBefore(cut, slots, j - 1));
      }
    }
  }

  lemma LongBeforeMore(cut: set<nat>, slots: seq<Slot>, j: nat, before: Name)
    requires 0 < j <= |slots| && Long(slots[j - 1]) && j !in cut && before == LongBefore(cut, slots, j - 1)
    ensures LongBefore(cut, slots, j) == Collect(slots[j - 1], before)
  {
  }

  lemma CollectShorter(e: Slot, whole: Name, left: Name)
    requires |left| <= |whole| <= 255
    ensures |Collect(e, left)| <= |Collect(e, whole)| <= 255
  {
  }

  lemma FittingNeverOverruns(cut: set<nat>, slots: seq<Slot>, name: Name)
    requires Fitting(slots)
    ensures !Overruns(cut, slots, name)
  {
    forall j: nat
      ensures !OverrunAt(cut, slots, 0, name, j)
    {
      if j < |slots| {
        CutIsShorter(cut, slots, j);
        assert !TooLong(slots[j], LongBefore({}, slots, j));
      }
    }
  }

  /** What the slots of a run give, one after the other. */
  ghost function Gathered(put: Collector, run: seq<Slot>): Name {
    if run == [] then [] else put(run[|run| - 1], Gathered(put, run[..|run| - 1]))
  }

  lemma {:induction false} GatheredIsCollected(run: seq<Slot>)
    ensures Gathered(Collecting(), run) == Collected(run, [])
  {
    if run == [] {
    } else {
      var n := |run| - 1;
      GatheredIsCollected(run[..n]);
      assert Collected(run, []) == Collect(run[n], Collected(run[..n], []));
    }
  }

  lemma {:induction false} LongByRun(put: Collector, slots: seq<Slot>, k: nat, j: nat, run: seq<Slot>)
    requires k <= j <= |slots| && Alone(slots, k) && run == slots[k..j] && forall i :: 0 <= i < |run| ==> Long(run[i])
    ensures LongBy(put, {}, slots, j) == Gathered(put, run)
    decreases |run|
  {
    if j == k {
    } else {
      var n := |run| - 1;
      assert run[n] == slots[j - 1] && run[..n] == slots[k..j - 1];
      LongByRun(put, slots, k, j - 1, run[..n]);
    }
  }

  /** The long name before an entry is what its slots collect. */
  lemma LongBeforeRun(slots: seq<Slot>, k: nat, j: nat, run: seq<Slot>)
    requires k <= j <= |slots| && Alone(slots, k) && run == slots[k..j] && forall i :: 0 <= i < |run| ==> Long(run[i])
    ensures LongBefore({}, slots, j) == Collected(run, [])
  {
    LongByRun(Collecting(), slots, k, j, run);
    GatheredIsCollected(run);
  }

  lemma {:induction false} LongSlotsLong(slots: seq<seq<Byte>>, name: Name, short: Name)
    requires AreLongSlots(slots, name, short)
    ensures forall i :: 0 <= i < |slots| ==> |slots[i]| == 32 && slots[i][11] == LONG_ATTR
    decreases |slots|
  {
    if slots == [] {
    } else {
      var n := |slots| - 1;
      LongSlotsLong(slots[..n], name, short);
      assert forall i :: 0 <= i < n ==> slots[i] == slots[..n][i];
    }
  }

  /**
   * One entry under a long name of 64 to 255 bytes: looking any name up overruns the buffer, also one that
   * is in the directory behind it.
   */
  method LongNameOverruns(long: Name, e: Slot, behind: seq<Slot>) returns (slots: seq<Slot>)
    requires NAME_BUFFER <= |long| <= MAX_NAME && 0 !in long && Live(e)
    ensures |slots| >= SlotCount(long) && slots[SlotCount(long)..] == [e] + behind
    ensures forall name :: Overruns({}, slots, name)
  {
    var head := SlotsOf(long, e[..11]);
    slots := head + ([e] + behind);
    assert slots[..|head|] == head;
    LongNameFirst(slots, |head|, long);
  }

  /** A file under 64 letters before one called `B`: no name can be looked up. */
  method LongNeighbour() returns (slots: seq<Slot>)
    ensures |slots| == 7 && Live(slots[6]) && forall name :: Overruns({}, slots, name)
  {
    var long: Name := seq(64, _ => 97);
    var e, b := NewEntry([65] + seq(10, _ => 32), 0x20), NewEntry([66] + seq(10, _ => 32), 0x20);
    slots := LongNameOverruns(long, e, [b]);
    assert slots[5..] == [e, b] && slots[6] == slots[5..][1];
  }

  /** The slots that the driver writes for a long name. */
  method SlotsOf(long: Name, short: Name) returns (slots: seq<Slot>)
    requires 1 <= |long| <= MAX_NAME && 0 !in long
    ensures |slots| == SlotCount(long) && (forall i :: 0 <= i < |slots| ==> Long(slots[i])) && Collected(slots, []) == long
  {
    var written := WriteLongSlots(long, short);
    LongRoundTrip(written, long, short, []);
    LongSlotsLong(written, long, short);
    slots := written;
  }

  lemma LongNameFirst(slots: seq<Slot>, n: nat, long: Name)
    requires n < |slots| && (forall i :: 0 <= i < n ==> Long(slots[i])) && Live(slots[n])
    requires Collected(slots[..n], []) == long && |long| >= NAME_BUFFER
    ensures forall name :: Overruns({}, slots, name)
  {
    LongBeforeRun(slots, 0, n, slots[..n]);
    forall name: Name
      ensures Overruns({}, slots, name)
    {
      assert OverrunAt({}, slots, 0, name, n);
    }
  }

  // ----- When the search to delete agrees -----

  /** The first slot, before any end, that is a hit in one of two ways. */
  ghost predicate FirstEither(ends: seq<bool>, p: seq<bool>, q: seq<bool>, j: nat)
    requires |ends| == |p| == |q|
  {
    && j < |p| && (p[j] || q[j]) && !ends[j] && forall i :: 0 <= i < j ==> !ends[i] && !p[i] && !q[i]
  }

  lemma FirstHitsAgree(ends: seq<bool>, p: seq<bool>, q: seq<bool>)
    requires |ends| == |p| == |q|
    ensures First(ends, p, 0) == First(ends, q, 0) <==> forall j: nat :: FirstEither(ends, p, q, j) ==> p[j] && q[j]
  {
    var a, b := First(ends, p, 0), First(ends, q, 0);
    if a == b {
      forall j: nat | FirstEither(ends, p, q, j)
        ensures p[j] && q[j]
      {
        FirstSkip(ends, p, 0, j);
        FirstSkip(ends, q, 0, j);
      }
    } else if a.Some? && (b.Some? ==> a.value < b.value) {
      OneHit(ends, p, q);
    } else {
      OneHit(ends, q, p);
      assert FirstEither(ends, p, q, b.value);
    }
  }

  lemma OneHit(ends: seq<bool>, p: seq<bool>, q: seq<bool>)
    requires |ends| == |p| == |q| && First(ends, p, 0).Some?
    requires var r := First(ends, q, 0); r.Some? ==> First(ends, p, 0).value < r.value
    ensures var j := First(ends, p, 0).value; FirstEither(ends, p, q, j) && !q[j]
  {
    NoneBefore(ends, q, First(ends, p, 0).value + 1);
  }

  /**
   * Lookup and a search that forgets the long name at the slots in `cut` come to the same for a name exactly
   * when the first entry that goes by it with its whole long name, or with what is left of that, goes by it
   * with both.
   */
  lemma SearchesAgree(cut: set<nat>, slots: seq<Slot>, name: Name)
    ensures Lookup(slots, name) == LookupIn(cut, slots, name) <==>
            forall j: nat :: FirstEither(Ends(slots), Hits({}, slots, name), Hits(cut, slots, name), j) ==>
              Answers({}, slots, j, name) && Answers(cut, slots, j, name)
  {
    FirstHitsAgree(Ends(slots), Hits({}, slots, name), Hits(cut, slots, name));
  }

  /** No slot of a long name stands right before one of these slots. */
  ghost predicate Uncrossed(cut: set<nat>, slots: seq<Slot>) {
    forall k :: k in cut && k <= |slots| ==> Alone(slots, k)
  }

  lemma {:induction false} UncrossedBy(put: Collector, cut: set<nat>, slots: seq<Slot>, j: nat)
    requires Uncrossed(cut, slots) && j <= |slots|
    ensures LongBy(put, cut, slots, j) == LongBy(put, {}, slots, j)
  {
    if j == 0 {
    } else if j in cut {
      assert !Long(slots[j - 1]);
    } else {
      UncrossedBy(put, cut, slots, j - 1);
    }
  }

  lemma UncrossedLong(cut: set<nat>, slots: seq<Slot>, j: nat)
    requires Uncrossed(cut, slots) && j <= |slots|
    ensures LongBefore(cut, slots, j) == LongBefore({}, slots, j)
  {
    UncrossedBy(Collecting(), cut, slots, j);
  }

  /** In particular they agree for every name when no long name crosses into another cluster. */
  lemma UncrossedAgree(cut: set<nat>, slots: seq<Slot>, name: Name)
    requires Uncrossed(cut, slots)
    ensures Lookup(slots, name) == LookupIn(cut, slots, name)
  {
    forall j | 0 <= j < |slots|
      ensures Answers({}, slots, j, name) <==> Answers(cut, slots, j, name)
    {
      UncrossedLong(cut, slots, j);
    }
    assert Hits({}, slots, name) == Hits(cut, slots, name);
  }

  /** A long name of thirteen letters in the last slot of a cluster, its entry in the first slot of the next. */
  function CrossedName(): Name {
    seq(13, _ => 97)
  }

  function CrossedSlot(): (s: Slot)
    ensures s[0] == 0x41 && s[11] == LONG_ATTR
    ensures forall k {:trigger UnitAt(k)} :: 0 <= k < UNITS ==> s[UnitAt(k)] == 97 && s[UnitAt(k) + 1] == 0
  {
    seq(32, p => if p == 0 then 0x41 else if p == 11 then LONG_ATTR
                 else if p < 11 then (if p % 2 == 1 then 97 else 0)
                 else if p % 2 == 0 && p != 12 && p != 26 then 97 else 0)
  }

  function CrossedDirectory(): seq<Slot> {
    seq(15, _ => seq(32, _ => DELETED)) + [CrossedSlot(), NewEntry([65] + seq(10, _ => 32), 0x20)]
  }

  lemma CrossedLong()
    ensures Collect(CrossedSlot(), []) == CrossedName() && Long(CrossedSlot())
  {
    var slot, name := CrossedSlot(), CrossedName();
    assert HoldsUnits(slot, name, 0, UNITS);
    PartOf(slot, name, 0);
    assert Cut(name, 0, UNITS) == name;
  }

  /** The short name of an entry has at most twelve characters. */
  lemma ShortIsShort(short: Name)
    requires |short| == 11
    ensures |CString(Listed(short))| <= 12
  {
    NoSpacesLength(short[8..]);
  }

  lemma CrossedAnswers(slots: seq<Slot>, name: Name)
    requires |slots| == 17 && (forall j :: 0 <= j < 15 ==> slots[j][0] == DELETED) && slots[15] == CrossedSlot() && Live(slots[16])
    requires name == CrossedName()
    ensures Answers({}, slots, 16, name) && forall j :: 0 <= j < 16 ==> !Answers({}, slots, j, name)
  {
    CrossedLong();
    assert LongBefore({}, slots, 15) == [];
    assert LongBefore({}, slots, 16) == name;
  }

  lemma CrossedSilent(slots: seq<Slot>, cut: set<nat>, name: Name)
    requires |slots| == 17 && (forall j :: 0 <= j < 15 ==> slots[j][0] == DELETED) && slots[15] == CrossedSlot()
    requires 16 in cut && |name| == 13
    ensures forall j :: 0 <= j < 17 ==> !Answers(cut, slots, j, name)
  {
    assert LongBefore(cut, slots, 16) == [];
    ShortIsShort(slots[16][..11]);
  }

  /** Lookup finds such an entry and the search to delete it does not. */
  lemma CrossedNameStays()
    ensures Lookup(CrossedDirectory(), CrossedName()) == Some(16)
    ensures LookupIn({0, 16}, CrossedDirectory(), CrossedName()) == None
  {
    var slots, name := CrossedDirectory(), CrossedName();
    assert slots[15] == CrossedSlot() && slots[16][0] == 65;
    CrossedAnswers(slots, name);
    CrossedSilent(slots, {0, 16}, name);
    FirstSkip(Ends(slots), Hits({}, slots, name), 0, 16);
    FirstSkip(Ends(slots), Hits({0, 16}, slots, name), 0, 17);
  }

  // ----- What one changed slot does to lookups -----

  ghost predicate AnswersAs(e: Slot, lfn: Name, name: Name) {
    Live(e) && SameName(NameOf(e, lfn), name)
  }

  /** The slots of long names before slot `j` are the same. */
  ghost predicate LongsAgree(a: seq<Slot>, b: seq<Slot>, j: nat)
    requires j <= |a| && j <= |b|
  {
    forall i :: 0 <= i < j && (Long(a[i]) || Long(b[i])) ==> a[i] == b[i]
  }

  lemma {:induction false} LongBySame(put: Collector, cut: set<nat>, a: seq<Slot>, b: seq<Slot>, j: nat)
    requires j <= |a| && j <= |b| && LongsAgree(a, b, j)
    ensures LongBy(put, cut, a, j) == LongBy(put, cut, b, j)
  {
    if j == 0 {
    } else {
      LongBySame(put, cut, a, b, j - 1);
    }
  }

  lemma LongBeforeSame(cut: set<nat>, a: seq<Slot>, b: seq<Slot>, j: nat)
    requires j <= |a| && j <= |b| && LongsAgree(a, b, j)
    ensures LongBefore(cut, a, j) == LongBefore(cut, b, j)
  {
    LongBySame(Collecting(), cut, a, b, j);
  }

  lemma ChangedHits(cut: set<nat>, slots: seq<Slot>, k: nat, e: Slot, name: Name)
    requires k < |slots| && !Long(slots[k]) && !Long(e)
    ensures Hits(cut, slots[k := e], name) == Hits(cut, slots, name)[k := AnswersAs(e, LongBefore(cut, slots, k), name)]
    ensures Ends(slots[k := e]) == Ends(slots)[k := e[0] == 0x00]
  {
    var next := slots[k := e];
    forall j | 0 <= j < |slots|
      ensures LongBefore(cut, next, j) == LongBefore(cut, slots, j)
    {
      LongBeforeSame(cut, slots, next, j);
    }
  }

  /**
   * For any directory: a slot that no zero slot comes before is changed to an entry or to a deleted one. A
   * name then finds what it found before the slot, the entry in it, or what comes after it.
   */
  lemma ChangedLookup(slots: seq<Slot>, k: nat, e: Slot, name: Name)
    requires k < |slots| && !Long(slots[k]) && !Long(e) && e[0] != 0x00 && NoZero(slots, k)
    ensures var r := Lookup(slots, name);
            Lookup(slots[k := e], name) ==
            if r.Some? && r.value < k then r
            else if AnswersAs(e, LongBefore({}, slots, k), name) then Some(k)
            else LookupFrom(slots, name, k + 1)
  {
    ChangedHits({}, slots, k, e, name);
    FirstChanged(Ends(slots), Hits({}, slots, name), k, AnswersAs(e, LongBefore({}, slots, k), name));
  }

  /** What a name finds that it does not find before slot `k`. */
  lemma LookupHere(slots: seq<Slot>, k: nat, name: Name)
    requires k < |slots| && NoZero(slots, k) && (Lookup(slots, name).Some? ==> Lookup(slots, name).value >= k)
    ensures Lookup(slots, name) ==
            if slots[k][0] == 0x00 then None
            else if Answers({}, slots, k, name) then Some(k) else LookupFrom(slots, name, k + 1)
  {
    NoneBefore(Ends(slots), Hits({}, slots, name), k);
  }

  // ----- Directories in order -----

  /** No slot of a long name stands right before slot `k`. */
  ghost predicate Alone(slots: seq<Slot>, k: nat) {
    k == 0 || (k <= |slots| && !Long(slots[k - 1]))
  }

  ghost predicate InUseAt(slots: seq<Slot>, i: nat) {
    i < |slots| && !Free(slots[i])
  }

  /** A directory entry without a long name, whose name finds a directory. */
  ghost predicate Repeated(slots: seq<Slot>, j: nat)
    requires j < |slots|
  {
    && Live(slots[j]) && IsDir(slots[j]) && Alone(slots, j)
    && var r := Lookup(slots, ShortName(slots[j])); r.Some? && IsDir(slots[r.value])
  }

  /**
   * After a zero slot there are only zero slots and repeated directories, such as `fs_mkdir` leaves in each
   * sector; and the slots of a long name are followed by an entry in use.
   */
  ghost predicate Tidy(slots: seq<Slot>) {
    && (forall i, j :: 0 <= i < j < |slots| && slots[i][0] == 0x00 && slots[j][0] != 0x00 ==> Repeated(slots, j))
    && (forall i :: 0 <= i < |slots| && Long(slots[i]) ==> InUseAt(slots, i + 1))
  }

  function FirstFree(slots: seq<Slot>, k: nat): (f: nat)
    requires k <= |slots|
    ensures k <= f <= |slots| && (f < |slots| ==> Free(slots[f])) && forall i :: k <= i < f ==> !Free(slots[i])
    decreases |slots| - k
  {
    if k == |slots| || Free(slots[k]) then k else FirstFree(slots, k + 1)
  }

  lemma TidyAlone(slots: seq<Slot>)
    requires Tidy(slots)
    ensures Alone(slots, FirstFree(slots, 0))
  {
    var f := FirstFree(slots, 0);
    if f > 0 {
      assert Long(slots[f - 1]) ==> InUseAt(slots, f);
    }
  }

  lemma AloneNoLong(cut: set<nat>, slots: seq<Slot>, k: nat)
    requires k <= |slots| && Alone(slots, k)
    ensures LongBefore(cut, slots, k) == []
  {
  }

  /** A name that is not found before a zero slot is not found after it. */
  lemma NothingBeyond(slots: seq<Slot>, k: nat, name: Name)
    requires Tidy(slots) && k < |slots| && slots[k][0] == 0x00 && Lookup(slots, name) == None
    ensures LookupFrom(slots, name, k + 1) == None
  {
    var r := LookupFrom(slots, name, k + 1);
    if r.Some? {
      var j := r.value;
      assert slots[j][0] != 0x00;
      assert Repeated(slots, j);
      AloneNoLong({}, slots, j);
      LookupSame(slots, ShortName(slots[j]), name);
    }
  }

  // ----- Creating an entry -----

  /** A new entry in the first free slot is found by its name and hides no other. */
  lemma CreatedLookup(slots: seq<Slot>, e: Slot, name: Name)
    requires Tidy(slots) && FirstFree(slots, 0) < |slots| && Live(e)
    ensures var k := FirstFree(slots, 0);
            var r := Lookup(slots, name);
            Lookup(slots[k := e], name) == if !(r.Some? && r.value < k) && SameName(ShortName(e), name) then Some(k) else r
  {
    var k := FirstFree(slots, 0);
    TidyAlone(slots);
    AloneNoLong({}, slots, k);
    ChangedLookup(slots, k, e, name);
    PassedOver(slots, k, name);
  }

  /** An entry that reads as deleted changes nothing when it is put in the first free slot. */
  lemma HiddenLookup(slots: seq<Slot>, e: Slot, name: Name)
    requires Tidy(slots) && FirstFree(slots, 0) < |slots| && e[0] == DELETED
    ensures Lookup(slots[FirstFree(slots, 0) := e], name) == Lookup(slots, name)
  {
    var k := FirstFree(slots, 0);
    ChangedLookup(slots, k, e, name);
    PassedOver(slots, k, name);
  }

  /** What is not found before the first free slot is found after it or not at all. */
  lemma PassedOver(slots: seq<Slot>, k: nat, name: Name)
    requires Tidy(slots) && k == FirstFree(slots, 0) < |slots|
    ensures var r := Lookup(slots, name); !(r.Some? && r.value < k) ==> r == LookupFrom(slots, name, k + 1)
  {
    var r := Lookup(slots, name);
    if !(r.Some? && r.value < k) {
      LookupHere(slots, k, name);
      if slots[k][0] == 0x00 {
        NothingBeyond(slots, k, name);
      }
    }
  }

  /** What keeps a repeated entry one: the slots around it and what its name finds. */
  lemma StillRepeated(a: seq<Slot>, b: seq<Slot>, j: nat)
    requires j < |a| == |b| && Repeated(a, j) && Live(b[j]) && IsDir(b[j]) && b[j][..11] == a[j][..11]
    requires j > 0 && Long(b[j - 1]) ==> Long(a[j - 1])
    requires var r := Lookup(a, ShortName(a[j])); r.Some? ==> Lookup(b, ShortName(a[j])) == r && IsDir(b[r.value])
    ensures Repeated(b, j)
  {
  }

  lemma CreatedTidy(slots: seq<Slot>, e: Slot)
    requires Tidy(slots) && FirstFree(slots, 0) < |slots| && Live(e) && Lookup(slots, ShortName(e)) == None
    ensures Tidy(slots[FirstFree(slots, 0) := e])
  {
    var k := FirstFree(slots, 0);
    var next := slots[k := e];
    forall i, j | 0 <= i < j < |next| && next[i][0] == 0x00 && next[j][0] != 0x00
      ensures Repeated(next, j)
    {
      assert Repeated(slots, j);
      var n := ShortName(slots[j]);
      CreatedLookup(slots, e, n);
      FoundLive(slots, n);
      if SameName(ShortName(e), n) {
        LookupSame(slots, ShortName(e), n);
      }
      StillRepeated(slots, next, j);
    }
    LongsFollowed(slots, next);
  }

  lemma HiddenTidy(slots: seq<Slot>, e: Slot)
    requires Tidy(slots) && FirstFree(slots, 0) < |slots| && e[0] == DELETED
    ensures Tidy(slots[FirstFree(slots, 0) := e])
  {
    var k := FirstFree(slots, 0);
    var next := slots[k := e];
    forall i, j | 0 <= i < j < |next| && next[i][0] == 0x00 && next[j][0] != 0x00
      ensures Repeated(next, j)
    {
      assert Repeated(slots, j);
      var n := ShortName(slots[j]);
      HiddenLookup(slots, e, n);
      FoundLive(slots, n);
      StillRepeated(slots, next, j);
    }
    LongsFollowed(slots, next);
  }

  /** Every slot of a long name is still followed by an entry in use. */
  lemma LongsFollowed(a: seq<Slot>, b: seq<Slot>)
    requires |a| == |b| && forall i :: 0 <= i < |a| && Long(a[i]) ==> InUseAt(a, i + 1)
    requires forall i :: 0 <= i < |a| ==> Long(b[i]) ==> Long(a[i])
    requires forall i :: 0 <= i < |a| && !Free(a[i]) && Free(b[i]) ==> i == 0 || !Long(b[i - 1])
    ensures forall i :: 0 <= i < |b| && Long(b[i]) ==> InUseAt(b, i + 1)
  {
    forall i | 0 <= i < |b| && Long(b[i])
      ensures InUseAt(b, i + 1)
    {
      assert InUseAt(a, i + 1);
    }
  }

  ghost predicate Zeroed(slots: seq<Slot>) {
    forall i :: 0 <= i < |slots| ==> slots[i][0] == 0x00
  }

  lemma GrownLookup(slots: seq<Slot>, zeros: seq<Slot>, name: Name)
    requires Zeroed(zeros)
    ensures Lookup(slots + zeros, name) == Lookup(slots, name)
  {
    var all := slots + zeros;
    forall j | 0 <= j < |slots|
      ensures LongBefore({}, all, j) == LongBefore({}, slots, j)
    {
      LongBeforeSame({}, all, slots, j);
    }
    assert Hits({}, slots, name) == Hits({}, all, name)[..|slots|] && Ends(slots) == Ends(all)[..|slots|];
    FirstGrown(Ends(slots), Hits({}, slots, name), Ends(all), Hits({}, all, name), 0);
  }

  /** The directory with a further, zeroed, cluster. */
  lemma GrownTidy(slots: seq<Slot>, zeros: seq<Slot>)
    requires Tidy(slots) && FirstFree(slots, 0) == |slots| && Zeroed(zeros)
    ensures Tidy(slots + zeros) && (zeros != [] ==> FirstFree(slots + zeros, 0) == |slots|)
  {
    var all := slots + zeros;
    forall i | 0 <= i < |all| && Long(all[i])
      ensures InUseAt(all, i + 1)
    {
      assert InUseAt(slots, i + 1);
    }
    if zeros != [] {
      assert Free(all[|slots|]);
      assert forall i :: 0 <= i < |slots| ==> all[i] == slots[i];
    }
  }

  // ----- Rewriting an entry -----

  /** An entry rewritten under the same name is found where it was, and so is every other. */
  lemma UpdatedLookup(slots: seq<Slot>, k: nat, e: Slot, name: Name)
    requires k < |slots| && Live(slots[k]) && Live(e) && e[..11] == slots[k][..11]
    ensures Lookup(slots[k := e], name) == Lookup(slots, name)
  {
    ChangedHits({}, slots, k, e, name);
    assert Hits({}, slots, name)[k] == AnswersAs(e, LongBefore({}, slots, k), name);
    assert Hits({}, slots[k := e], name) == Hits({}, slots, name) && Ends(slots[k := e]) == Ends(slots);
  }

  lemma UpdatedTidy(slots: seq<Slot>, k: nat, e: Slot)
    requires Tidy(slots) && k < |slots| && Live(slots[k]) && Live(e) && e[..11] == slots[k][..11] && IsDir(e) == IsDir(slots[k])
    ensures Tidy(slots[k := e])
  {
    var next := slots[k := e];
    forall i, j | 0 <= i < j < |next| && next[i][0] == 0x00 && next[j][0] != 0x00
      ensures Repeated(next, j)
    {
      assert Repeated(slots, j);
      UpdatedLookup(slots, k, e, ShortName(slots[j]));
      StillRepeated(slots, next, j);
    }
    LongsFollowed(slots, next);
  }

  // ----- Deleting an entry -----

  /** At most so many slots of a long name are remembered for deletion. */
  const MARKS := 20

  /** Where the slots of the long name before slot `j` begin, in a cluster that starts at slot `lo`. */
  ghost function RunStart(slots: seq<Slot>, lo: nat, j: nat): (i: nat)
    requires lo <= j <= |slots|
    ensures lo <= i <= j && forall x :: i <= x < j ==> Long(slots[x])
  {
    if j == lo || !Long(slots[j - 1]) then j
    else if Marked(slots[j - 1][0]) then j - 1
    else RunStart(slots, lo, j - 1)
  }

  /** Slot `k` and the `n` slots from `i` on are marked as deleted. */
  ghost function Erased(slots: seq<Slot>, i: nat, n: nat, k: nat): (r: seq<Slot>)
    requires k < |slots|
    ensures |r| == |slots|
    ensures forall x :: 0 <= x < |slots| ==> r[x] == if i <= x < i + n || x == k then AsDeleted(slots[x]) else slots[x]
  {
    seq(|slots|, x requires 0 <= x < |slots| => if i <= x < i + n || x == k then AsDeleted(slots[x]) else slots[x])
  }

  /** An entry and slots of the long name right before it. */
  ghost predicate IsRun(slots: seq<Slot>, i: nat, n: nat, k: nat) {
    i + n <= k < |slots| && Live(slots[k]) && forall x :: i <= x < k ==> Long(slots[x])
  }

  lemma {:induction false} LongByAfter(put: Collector, cut: set<nat>, a: seq<Slot>, b: seq<Slot>, k: nat, j: nat)
    requires k < j <= |a| == |b| && !Long(a[k]) && !Long(b[k]) && forall i :: k < i < j ==> a[i] == b[i]
    ensures LongBy(put, cut, a, j) == LongBy(put, cut, b, j)
  {
    if j == k + 1 {
    } else {
      LongByAfter(put, cut, a, b, k, j - 1);
    }
  }

  lemma LongBeforeAfter(cut: set<nat>, a: seq<Slot>, b: seq<Slot>, k: nat, j: nat)
    requires k < j <= |a| == |b| && !Long(a[k]) && !Long(b[k]) && forall i :: k < i < j ==> a[i] == b[i]
    ensures LongBefore(cut, a, j) == LongBefore(cut, b, j)
  {
    LongByAfter(Collecting(), cut, a, b, k, j);
  }

  /** Every other entry stays, under its name. */
  lemma ErasedNames(cut: set<nat>, slots: seq<Slot>, i: nat, n: nat, k: nat, j: nat)
    requires IsRun(slots, i, n, k) && j < |slots|
    ensures Live(Erased(slots, i, n, k)[j]) <==> Live(slots[j]) && j != k
    ensures Live(slots[j]) && j != k ==> LongBefore(cut, Erased(slots, i, n, k), j) == LongBefore(cut, slots, j)
  {
    var next := Erased(slots, i, n, k);
    if k < j {
      LongBeforeAfter(cut, slots, next, k, j);
    } else if j <= i {
      LongBeforeSame(cut, slots, next, j);
    }
  }

  lemma ErasedHits(cut: set<nat>, slots: seq<Slot>, i: nat, n: nat, k: nat, name: Name)
    requires IsRun(slots, i, n, k)
    ensures Hits(cut, Erased(slots, i, n, k), name) == Hits(cut, slots, name)[k := false]
    ensures Ends(Erased(slots, i, n, k)) == Ends(slots)
  {
    var next := Erased(slots, i, n, k);
    forall j | 0 <= j < |slots|
      ensures Answers(cut, next, j, name) == (j != k && Answers(cut, slots, j, name))
    {
      ErasedNames(cut, slots, i, n, k, j);
    }
  }

  /**
   * A deleted entry is passed over: its name goes on to the next entry of that name, every other stays. This
   * is so however many of the slots of its long name go with it.
   */
  lemma DeletedLookup(slots: seq<Slot>, i: nat, n: nat, k: nat, name: Name)
    requires IsRun(slots, i, n, k) && NoZero(slots, k)
    ensures var r := Lookup(slots, name);
            Lookup(Erased(slots, i, n, k), name) == if r == Some(k) then NextOf(slots, name) else r
  {
    var ends, hits := Ends(slots), Hits({}, slots, name);
    ErasedHits({}, slots, i, n, k, name);
    FirstChanged(ends, hits, k, false);
    assert ends[k := false] == ends;
    if !(Lookup(slots, name).Some? && Lookup(slots, name).value < k) {
      LookupHere(slots, k, name);
    }
  }

  /** No zero slot comes before a file. */
  lemma TidyBefore(slots: seq<Slot>, k: nat)
    requires Tidy(slots) && k < |slots| && Live(slots[k]) && !IsDir(slots[k])
    ensures NoZero(slots, k)
  {
  }

  lemma ErasedFollowed(slots: seq<Slot>, i: nat, n: nat, k: nat)
    requires Tidy(slots) && IsRun(slots, i, n, k)
    ensures var next := Erased(slots, i, n, k);
            (forall x :: 0 <= x < |next| && Long(next[x]) ==> InUseAt(next, x + 1)) <==> Alone(slots, i) && n == k - i
  {
    var next := Erased(slots, i, n, k);
    if Alone(slots, i) && n == k - i {
      LongsFollowed(slots, next);
    } else if n != k - i {
      assert Long(next[k - 1]) && !InUseAt(next, k);
    } else {
      assert Long(next[i - 1]) && !InUseAt(next, i);
    }
  }

  /** The directory stays in order exactly when the whole long name goes with its entry. */
  lemma DeletedTidy(slots: seq<Slot>, i: nat, n: nat, k: nat)
    requires Tidy(slots) && IsRun(slots, i, n, k) && !IsDir(slots[k])
    ensures Tidy(Erased(slots, i, n, k)) <==> Alone(slots, i) && n == k - i
  {
    var next := Erased(slots, i, n, k);
    TidyBefore(slots, k);
    forall x, j | 0 <= x < j < |next| && next[x][0] == 0x00 && next[j][0] != 0x00
      ensures Repeated(next, j)
    {
      assert Repeated(slots, j);
      DeletedLookup(slots, i, n, k, ShortName(slots[j]));
      FoundLive(slots, ShortName(slots[j]));
      StillRepeated(slots, next, j);
    }
    ErasedFollowed(slots, i, n, k);
  }

  lemma ErasedFitting(slots: seq<Slot>, i: nat, n: nat, k: nat)
    requires Fitting(slots) && IsRun(slots, i, n, k)
    ensures Fitting(Erased(slots, i, n, k))
  {
    var next := Erased(slots, i, n, k);
    forall j | 0 <= j < |next|
      ensures !TooLong(next[j], LongBefore({}, next, j))
    {
      ErasedNames({}, slots, i, n, k, j);
      assert !TooLong(slots[j], LongBefore({}, slots, j));
    }
  }

  /** Long names fit when one slot, no part of one, is changed to another. */
  lemma ChangedFitting(slots: seq<Slot>, k: nat, e: Slot)
    requires Fitting(slots) && k < |slots| && !Long(slots[k]) && !Long(e) && (Live(slots[k]) || Alone(slots, k) || !Live(e))
    ensures Fitting(slots[k := e])
  {
    var next := slots[k := e];
    forall j | 0 <= j < |next|
      ensures !TooLong(next[j], LongBefore({}, next, j))
    {
      LongBeforeSame({}, slots, next, j);
      assert !TooLong(slots[j], LongBefore({}, slots, j));
    }
  }

  lemma GrownFitting(slots: seq<Slot>, zeros: seq<Slot>)
    requires Fitting(slots) && Zeroed(zeros)
    ensures Fitting(slots + zeros)
  {
    var all := slots + zeros;
    forall j | 0 <= j < |slots|
      ensures !TooLong(all[j], LongBefore({}, all, j))
    {
      LongBeforeSame({}, slots, all, j);
      assert !TooLong(slots[j], LongBefore({}, slots, j));
    }
  }

  // ----- One file to a name -----

  /** No other entry comes after a file under its name. */
  ghost predicate Unambiguous(slots: seq<Slot>) {
    forall i, j :: 0 <= i < j < |slots| && Live(slots[i]) && !IsDir(slots[i]) && Live(slots[j]) ==>
      !SameName(NameAt({}, slots, i), NameAt({}, slots, j))
  }

  /** Every entry of `b` is in `a` at the same place and under the same name. */
  ghost predicate NamesKept(a: seq<Slot>, b: seq<Slot>) {
    forall j :: 0 <= j < |b| && Live(b[j]) ==>
      j < |a| && Live(a[j]) && IsDir(a[j]) == IsDir(b[j]) && NameAt({}, a, j) == NameAt({}, b, j)
  }

  lemma StillUnambiguous(a: seq<Slot>, b: seq<Slot>)
    requires Unambiguous(a) && NamesKept(a, b)
    ensures Unambiguous(b)
  {
  }

  /** Deleting a file leaves nothing under its name. */
  lemma NoneNext(slots: seq<Slot>, name: Name)
    requires Unambiguous(slots) && Lookup(slots, name).Some? && !IsDir(slots[Lookup(slots, name).value])
    ensures NextOf(slots, name) == None
  {
    var k, r := Lookup(slots, name).value, NextOf(slots, name);
    FoundLive(slots, name);
    if r.Some? {
      assert Answers({}, slots, r.value, name);
      SameNames(NameAt({}, slots, k), name, NameAt({}, slots, r.value));
    }
  }

  lemma ErasedUnambiguous(slots: seq<Slot>, i: nat, n: nat, k: nat)
    requires Unambiguous(slots) && IsRun(slots, i, n, k)
    ensures Unambiguous(Erased(slots, i, n, k))
  {
    var next := Erased(slots, i, n, k);
    forall j | 0 <= j < |next| && Live(next[j])
      ensures Live(slots[j]) && next[j] == slots[j] && NameAt({}, slots, j) == NameAt({}, next, j)
    {
      ErasedNames({}, slots, i, n, k, j);
    }
    StillUnambiguous(slots, next);
  }

  lemma ChangedNames(slots: seq<Slot>, k: nat, e: Slot, j: nat)
    requires k < |slots| && !Long(slots[k]) && !Long(e) && j < |slots|
    ensures LongBefore({}, slots[k := e], j) == LongBefore({}, slots, j)
    ensures j != k ==> NameAt({}, slots[k := e], j) == NameAt({}, slots, j)
  {
    LongBeforeSame({}, slots, slots[k := e], j);
  }

  lemma HiddenUnambiguous(slots: seq<Slot>, k: nat, e: Slot)
    requires Unambiguous(slots) && k < |slots| && Free(slots[k]) && Free(e)
    ensures Unambiguous(slots[k := e])
  {
    forall j | 0 <= j < |slots| && j != k
      ensures NameAt({}, slots, j) == NameAt({}, slots[k := e], j)
    {
      ChangedNames(slots, k, e, j);
    }
    StillUnambiguous(slots, slots[k := e]);
  }

  lemma UpdatedUnambiguous(slots: seq<Slot>, k: nat, e: Slot)
    requires Unambiguous(slots) && k < |slots| && Live(slots[k]) && Live(e)
    requires e[..11] == slots[k][..11] && IsDir(e) == IsDir(slots[k])
    ensures Unambiguous(slots[k := e])
  {
    forall j | 0 <= j < |slots|
      ensures NameAt({}, slots, j) == NameAt({}, slots[k := e], j)
    {
      ChangedNames(slots, k, e, j);
    }
    StillUnambiguous(slots, slots[k := e]);
  }

  lemma GrownUnambiguous(slots: seq<Slot>, zeros: seq<Slot>)
    requires Unambiguous(slots) && Zeroed(zeros)
    ensures Unambiguous(slots + zeros)
  {
    var all := slots + zeros;
    forall j | 0 <= j < |slots|
      ensures NameAt({}, slots, j) == NameAt({}, all, j)
    {
      LongBeforeSame({}, slots, all, j);
    }
    StillUnambiguous(slots, all);
  }

  /** An entry is found by its name, or its name is found elsewhere. */
  lemma NameTaken(slots: seq<Slot>, j: nat, name: Name)
    requires Tidy(slots) && j < |slots| && Live(slots[j]) && SameName(NameAt({}, slots, j), name)
    ensures Lookup(slots, name).Some?
  {
    if NoZero(slots, j) {
      Reachable(slots, j, name);
    } else {
      assert Repeated(slots, j);
      AloneNoLong({}, slots, j);
      LookupSame(slots, ShortName(slots[j]), name);
    }
  }

  lemma CreatedUnambiguous(slots: seq<Slot>, e: Slot)
    requires Tidy(slots) && Unambiguous(slots) && FirstFree(slots, 0) < |slots| && Live(e) && Lookup(slots, ShortName(e)) == None
    ensures Unambiguous(slots[FirstFree(slots, 0) := e])
  {
    var k := FirstFree(slots, 0);
    var next := slots[k := e];
    TidyAlone(slots);
    AloneNoLong({}, slots, k);
    forall j | 0 <= j < |slots|
      ensures j != k ==> NameAt({}, next, j) == NameAt({}, slots, j)
      ensures j == k ==> NameAt({}, next, j) == ShortName(e)
      ensures j != k && Live(slots[j]) ==> !SameName(NameAt({}, slots, j), ShortName(e)) && !SameName(ShortName(e), NameAt({}, slots, j))
    {
      ChangedNames(slots, k, e, j);
      if j != k && Live(slots[j]) && (SameName(NameAt({}, slots, j), ShortName(e)) || SameName(ShortName(e), NameAt({}, slots, j))) {
        NameTaken(slots, j, ShortName(e));
      }
    }
  }

  // ----- Long names in order -----

  /**
   * The slots of each long name begin with the marked one, are at most twenty and stand in one cluster, the
   * clusters starting at the slots in `starts`.
   */
  ghost predicate Neat(starts: set<nat>, slots: seq<Slot>) {
    && Uncrossed(starts, slots)
    && (forall i :: 0 <= i < |slots| && Long(slots[i]) ==> (Marked(slots[i][0]) <==> Alone(slots, i)))
    && (forall i, k :: 0 <= i && i + MARKS < k <= |slots| ==> !AllLong(slots, i, k))
  }

  ghost predicate AllLong(slots: seq<Slot>, i: nat, k: nat)
    requires i <= k <= |slots|
  {
    forall x :: i <= x < k ==> Long(slots[x])
  }

  /** So each is found whole. */
  lemma NeatRun(starts: set<nat>, slots: seq<Slot>, lo: nat, k: nat)
    requires Neat(starts, slots) && lo in starts && lo <= k <= |slots|
    ensures Alone(slots, RunStart(slots, lo, k)) && k - RunStart(slots, lo, k) <= MARKS
  {
    NeatStart(starts, slots, lo, k);
    assert AllLong(slots, RunStart(slots, lo, k), k);
  }

  lemma {:induction false} NeatStart(starts: set<nat>, slots: seq<Slot>, lo: nat, k: nat)
    requires Neat(starts, slots) && lo in starts && lo <= k <= |slots|
    ensures Alone(slots, RunStart(slots, lo, k))
  {
    if k == lo {
      assert Alone(slots, lo);
    } else if !Long(slots[k - 1]) {
      assert Alone(slots, k);
    } else if Marked(slots[k - 1][0]) {
      assert Alone(slots, k - 1);
    } else {
      NeatStart(starts, slots, lo, k - 1);
    }
  }

  /** The long names of `b` are among those of `a`, each whole or gone. */
  lemma StillNeat(starts: set<nat>, more: set<nat>, a: seq<Slot>, b: seq<Slot>)
    requires Neat(starts, a) && |a| <= |b| && (forall i :: 0 <= i < |b| && Long(b[i]) ==> i < |a| && a[i] == b[i])
    requires forall i :: 0 < i < |a| && Long(a[i]) && Long(b[i]) && Long(a[i - 1]) ==> Long(b[i - 1])
    requires forall k :: k in more && k <= |b| ==> k in starts || k == 0 || !Long(b[k - 1])
    ensures Neat(more, b)
  {
    forall i | 0 <= i < |b| && Long(b[i])
      ensures Marked(b[i][0]) <==> Alone(b, i)
    {
      assert Alone(b, i) <==> Alone(a, i);
    }
    forall i, k | 0 <= i && i + MARKS < k <= |b|
      ensures !AllLong(b, i, k)
    {
      if AllLong(b, i, k) {
        assert Long(b[k - 1]);
        assert AllLong(a, i, k);
      }
    }
  }
}
