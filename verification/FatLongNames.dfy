/**
 * What becomes of a new file under a name that needs a long form. `fat_create_entry` makes an entry that the
 * name finds, but gives back the place of the first slot of the long name instead of the entry's. The write
 * that follows puts the file's entry there, and after it the name finds nothing.
 */
module FatLongNames {
  import opened Basics
  import opened FatNames
  import opened FatVolume
  import opened FatEntries
  import opened FatFiles

  /** The slots of a long name and an entry in free slots from `k` on. */
  ghost predicate Placed(was: seq<Slot>, now: seq<Slot>, k: nat, long: seq<Slot>, e: Slot) {
    && |now| == |was| && k + |long| < |was| && (forall j :: 0 <= j < |was| && !(k <= j <= k + |long|) ==> now[j] == was[j])
    && (forall j :: k <= j <= k + |long| ==> Free(was[j])) && now[k..k + |long|] == long && now[k + |long|] == e
  }

  /** What `fat_create_entry` puts there for a name. */
  ghost predicate LongForm(name: Name, long: seq<Slot>, e: Slot) {
    1 <= |name| <= MAX_NAME && 0 !in name && |long| == SlotCount(name) && AreLongSlots(long, name, Short(name)) && e[..11] == Short(name)
  }

  lemma FormSlots(long: seq<Slot>, e: Slot, name: Name)
    requires LongForm(name, long, e)
    ensures (forall i :: 0 <= i < |long| ==> Long(long[i])) && Collected(long, []) == name
  {
    LongSlotsLong(long, name, Short(name));
    LongRoundTrip(long, name, Short(name), []);
  }

  lemma PlacedSlots(was: seq<Slot>, now: seq<Slot>, k: nat, long: seq<Slot>, e: Slot)
    requires Placed(was, now, k, long, e) && forall i :: 0 <= i < |long| ==> Long(long[i])
    ensures forall j :: k <= j < k + |long| ==> Long(now[j])
  {
    forall j | k <= j < k + |long|
      ensures Long(now[j])
    {
      assert now[j] == now[k..k + |long|][j - k];
    }
  }

  /** Entries that have not changed do not answer to a name that is not found. */
  lemma QuietBefore(was: seq<Slot>, now: seq<Slot>, k: nat, name: Name)
    requires Tidy(was) && k <= |was| == |now| && Lookup(was, name) == None && forall j :: 0 <= j < k ==> now[j] == was[j]
    ensures forall j :: 0 <= j < k ==> !Answers({}, now, j, name)
  {
    forall j | 0 <= j < k
      ensures !Answers({}, now, j, name)
    {
      LongBeforeSame({}, was, now, j);
      SilentBefore(was, j, name);
    }
  }

  lemma QuietAfter(was: seq<Slot>, now: seq<Slot>, n: nat, name: Name)
    requires Tidy(was) && n < |was| == |now| && Lookup(was, name) == None && !Long(was[n]) && !Long(now[n])
    requires forall j :: n < j < |was| ==> now[j] == was[j]
    ensures forall j :: n < j < |was| ==> !Answers({}, now, j, name)
  {
    forall j | n < j < |was|
      ensures !Answers({}, now, j, name)
    {
      LongBeforeAfter({}, was, now, n, j);
      SilentBefore(was, j, name);
    }
  }

  /** The slots of its long name give an entry that name. */
  lemma PlacedName(now: seq<Slot>, k: nat, long: seq<Slot>, n: nat, name: Name)
    requires n == k + |long| < |now| && Alone(now, k) && now[k..n] == long && Live(now[n])
    requires (forall i :: 0 <= i < |long| ==> Long(long[i])) && Collected(long, []) == name && name != []
    ensures Answers({}, now, n, name)
  {
    LongBeforeRun(now, k, n, long);
    AnswersLong(now, n, name);
  }

  lemma AnswersLong(slots: seq<Slot>, j: nat, name: Name)
    requires j < |slots| && Live(slots[j])
    ensures name != [] && LongBefore({}, slots, j) == name ==> Answers({}, slots, j, name)
  {
  }

  /** As it is created the entry is found, unless a zero slot comes before it. */
  lemma LongCreatedFound(was: seq<Slot>, now: seq<Slot>, k: nat, long: seq<Slot>, e: Slot, name: Name)
    requires Tidy(was) && Placed(was, now, k, long, e) && LongForm(name, long, e) && Live(e) && Alone(was, k)
    requires NoZero(was, k) && Lookup(was, name) == None
    ensures Lookup(now, name) == Some(k + |long|)
  {
    var n := k + |long|;
    FormSlots(long, e, name);
    PlacedSlots(was, now, k, long, e);
    PlacedName(now, k, long, n, name);
    QuietBefore(was, now, k, name);
    assert NoZero(now, k);
    FirstAnswer(now, k, n, name);
  }

  /** The first entry that answers is found, past the slots of its long name. */
  lemma FirstAnswer(slots: seq<Slot>, k: nat, n: nat, name: Name)
    requires k <= n < |slots| && Answers({}, slots, n, name) && NoZero(slots, k)
    requires (forall j :: 0 <= j < k ==> !Answers({}, slots, j, name)) && forall j :: k <= j < n ==> Long(slots[j])
    ensures Lookup(slots, name) == Some(n)
  {
    FirstSkip(Ends(slots), Hits({}, slots, name), 0, n);
  }

  /** No entry answers to a name that is not found. */
  lemma SilentBefore(slots: seq<Slot>, j: nat, name: Name)
    requires Tidy(slots) && j < |slots| && Lookup(slots, name) == None
    ensures !Answers({}, slots, j, name)
  {
    if Answers({}, slots, j, name) {
      NameTaken(slots, j, name);
    }
  }

  /** A long name has at most 13 bytes for each of its slots. */
  lemma {:induction false} LongByShort(put: Collector, slots: seq<Slot>, i: nat, j: nat)
    requires i < j <= |slots| && !Long(slots[i]) && forall e, lfn :: |put(e, lfn)| <= |lfn| + UNITS
    ensures |LongBy(put, {}, slots, j)| <= UNITS * (j - i - 1)
    decreases j
  {
    if j == i + 1 || !Long(slots[j - 1]) {
    } else {
      LongByShort(put, slots, i, j - 1);
    }
  }

  lemma LongBeforeShort(slots: seq<Slot>, i: nat, j: nat)
    requires i < j <= |slots| && !Long(slots[i])
    ensures |LongBefore({}, slots, j)| <= UNITS * (j - i - 1)
  {
    forall e: Slot, lfn: Name
      ensures |Collecting()(e, lfn)| <= |lfn| + UNITS
    {
      CollectAdds(e, lfn);
    }
    LongByShort(Collecting(), slots, i, j);
  }

  lemma CollectAdds(e: Slot, lfn: Name)
    ensures |Collect(e, lfn)| <= |lfn| + UNITS
  {
  }

  /** A name that needs the long form is not the name in its entry. */
  lemma NotItsShortName(e: Slot, name: Name)
    requires e[..11] == Short(name) && 0 !in name && !Is83(name)
    ensures !SameName(ShortName(e), name)
  {
    ListedHasNoNul(name);
    IndexOfUnique(Listed(Short(name)), 0, |Listed(Short(name))|);
    ShortRoundTrip(name);
  }

  lemma {:induction false} NeverFirst(ends: seq<bool>, hits: seq<bool>, k: nat)
    requires |ends| == |hits| && forall j :: 0 <= j < |hits| ==> !hits[j]
    ensures First(ends, hits, k) == None
    decreases |hits| - k
  {
    if k >= |hits| {
    } else {
      NeverFirst(ends, hits, k + 1);
    }
  }

  /** The two entries that are left answer to other names. */
  lemma LeftOver(now: seq<Slot>, k: nat, n: nat, name: Name)
    requires k < n < |now| && n - k == SlotCount(name) && Alone(now, k) && 0 !in name && !Is83(name) && name != []
    requires now[k][..11] == Short(name) && now[n][..11] == Short(name) && !Long(now[k])
    ensures !Answers({}, now, k, name) && !Answers({}, now, n, name)
  {
    AloneNoLong({}, now, k);
    NotItsShortName(now[k], name);
    NotItsShortName(now[n], name);
    LongBeforeShort(now, k, n);
  }

  /** Outside slots `k` to `n` nothing has changed, and between them are slots of a long name. */
  ghost predicate Around(was: seq<Slot>, now: seq<Slot>, k: nat, n: nat) {
    && k < n < |was| == |now| && (forall j :: 0 <= j < k ==> now[j] == was[j]) && (forall j :: n < j < |was| ==> now[j] == was[j])
    && !Long(was[n]) && !Long(now[n]) && forall j :: k < j < n ==> Long(now[j])
  }

  lemma PlacedAround(was: seq<Slot>, now: seq<Slot>, k: nat, long: seq<Slot>, e: Slot, after: seq<Slot>, e2: Slot, n: nat)
    requires Placed(was, now, k, long, e) && long != [] && (forall i :: 0 <= i < |long| ==> Long(long[i])) && !Long(e)
    requires after == now[k := e2] && n == k + |long|
    ensures Around(was, after, k, n) && after[k] == e2 && after[n] == e && (Alone(was, k) ==> Alone(after, k))
  {
    PlacedSlots(was, now, k, long, e);
  }

  lemma NobodyAnswers(was: seq<Slot>, now: seq<Slot>, k: nat, n: nat, name: Name)
    requires Tidy(was) && Around(was, now, k, n) && Lookup(was, name) == None
    requires !Answers({}, now, k, name) && !Answers({}, now, n, name)
    ensures Lookup(now, name) == None
  {
    QuietBefore(was, now, k, name);
    QuietAfter(was, now, n, name);
    forall j | 0 <= j < |now|
      ensures !Hits({}, now, name)[j]
    {
      assert j < k || j == k || (k < j < n && Long(now[j])) || j == n || n < j;
    }
    NeverFirst(Ends(now), Hits({}, now, name), 0);
  }

  /**
   * Once the file's entry has been written over the first slot of the long name, the name finds nothing,
   * whatever the directory was.
   */
  lemma LongNameLost(was: seq<Slot>, now: seq<Slot>, k: nat, long: seq<Slot>, e: Slot, e2: Slot, name: Name)
    requires Tidy(was) && Placed(was, now, k, long, e) && LongForm(name, long, e) && !Long(e) && !Is83(name) && Alone(was, k)
    requires Lookup(was, name) == None && e2[..11] == Short(name) && !Long(e2)
    ensures Lookup(now[k := e2], name) == None
  {
    var after, n := now[k := e2], k + |long|;
    FormSlots(long, e, name);
    PlacedAround(was, now, k, long, e, after, e2, n);
    assert after[k][..11] == Short(name) && after[n][..11] == Short(name);
    AroundLost(was, after, k, n, name);
  }

  lemma AroundLost(was: seq<Slot>, now: seq<Slot>, k: nat, n: nat, name: Name)
    requires Tidy(was) && Around(was, now, k, n) && Lookup(was, name) == None && Alone(now, k) && n - k == SlotCount(name)
    requires 0 !in name && !Is83(name) && name != [] && now[k][..11] == Short(name) && now[n][..11] == Short(name) && !Long(now[k])
    ensures Lookup(now, name) == None
  {
    LeftOver(now, k, n, name);
    NobodyAnswers(was, now, k, n, name);
  }

  /** An empty directory and the name `aaaaaaaaa`: found when it is created, and lost when the file is written. */
  method NineLetters() returns (made: seq<Slot>, written: seq<Slot>)
    ensures Lookup(made, seq(9, _ => 97)) == Some(1)
    ensures written == made[0 := WithFile(made[1], 5, 1)] && Lookup(written, seq(9, _ => 97)) == None
  {
    var name: Name := seq(9, _ => 97);
    var zero: Slot := seq(32, _ => 0);
    ghost var was: seq<Slot> := seq(16, _ => zero);
    var e := NewEntry(Short(name), 0x20);
    NewEntryFields(Short(name), 0x20);
    IndexOfUnique(name, DOT, 9);
    var long := LongSlots(name);
    made := long + [e] + seq(14, _ => zero);
    EmptyTidy(was, name);
    NineIsLive(name);
    assert made[0..1] == long;
    LongCreatedFound(was, made, 0, long, e, name);
    written := made[0 := WithFile(e, 5, 1)];
    LongNameLost(was, made, 0, long, e, WithFile(e, 5, 1), name);
  }

  lemma NineIsLive(name: Name)
    requires |name| == 9 && (forall i :: 0 <= i < 9 ==> name[i] == 97) && IndexOf(name, DOT) == 9
    ensures Short(name)[0] == 65
  {
    assert Stem(name)[0] == 97;
  }

  lemma EmptyTidy(slots: seq<Slot>, name: Name)
    requires Zeroed(slots)
    ensures Tidy(slots) && Lookup(slots, name) == None
  {
  }

  method LongSlots(name: Name) returns (long: seq<Slot>)
    requires 1 <= |name| <= MAX_NAME
    ensures |long| == SlotCount(name) && AreLongSlots(long, name, Short(name))
  {
    var written := WriteLongSlots(name, Short(name));
    LongSlotsLong(written, name, Short(name));
    long := written;
  }
}
