/**
 * Whole runs of writes, appends and deletions in one directory of a FAT32 volume: the directory refines a
 * map from names, without regard to case, to bytes.
 */
module FatRun {
  import opened Basics
  import opened FatNames
  import opened FatVolume
  import opened FatData
  import opened FatEntries
  import opened FatDirectory
  import opened FatFiles
  import opened FatRemoval

  // ----- The map -----

  /** A name without regard to case. */
  function Key(name: Name): (k: Name)
    ensures |k| == |name| && forall i :: 0 <= i < |name| ==> k[i] == Lower(name[i])
  {
    seq(|name|, i requires 0 <= i < |name| => Lower(name[i]))
  }

  lemma KeyIsName(a: Name, b: Name)
    ensures SameName(a, b) <==> Key(a) == Key(b)
  {
    if Key(a) == Key(b) {
      forall i | 0 <= i < |a|
        ensures Lower(a[i]) == Lower(b[i])
      {
        assert Key(a)[i] == Key(b)[i];
      }
    }
  }

  type Files = map<Name, seq<Byte>>

  function Held(files: Files, name: Name): Option<seq<Byte>> {
    if Key(name) in files then Some(files[Key(name)]) else None
  }

  /** The files of the directory are those of the map. */
  ghost predicate Agrees(g: Geometry, m: Image, dir: nat, files: Files) {
    forall n :: File(g, m, dir, n) == Held(files, n)
  }

  function With(files: Files, name: Name, value: Option<seq<Byte>>): Files {
    if value.Some? then files[Key(name) := value.value] else files - {Key(name)}
  }

  /** One name changes, and the map with it. */
  lemma AgreesWith(g: Geometry, a: Image, b: Image, dir: nat, files: Files, name: Name, value: Option<seq<Byte>>)
    requires Agrees(g, a, dir, files) && OthersSame(g, a, b, dir, name) && File(g, b, dir, name) == value
    ensures Agrees(g, b, dir, With(files, name, value))
  {
    forall n: Name
      ensures File(g, b, dir, n) == Held(With(files, name, value), n)
    {
      KeyIsName(name, n);
      if SameName(name, n) {
        LookupSame(DirSlots(g, b.disk, b.chains, dir), name, n);
      } else {
        assert File(g, b, dir, n) == File(g, a, dir, n);
      }
    }
  }

  lemma NothingWith(files: Files, name: Name)
    ensures With(files, name, Held(files, name)) == files
  {
  }

  // ----- Steps -----

  datatype FileOp = Put(name: Name, data: seq<Byte>, append: bool) | Remove(name: Name)

  /** The volume as the directory shows it, and the map it stands for. */
  datatype State = State(m: Image, fat: seq<nat>, files: Files)

  ghost predicate StateOk(g: Geometry, dir: nat, s: State) {
    ImageOk(g, s.m, s.fat) && DirOk(g, s.m, dir) && Strict(g, s.m, dir) && Agrees(g, s.m, dir, s.files)
  }

  /** There is a slot for a new entry of this name, or a cluster for one. */
  ghost predicate CanMake(g: Geometry, s: State, dir: nat, name: Name) {
    && Lookup(DirSlots(g, s.m.disk, s.m.chains, dir), name) == None
    && EntryTakes(g, s.m, dir, name) <= |Unused(s.fat, g.total)|
  }

  /** What is under the name afterwards. */
  ghost function Outcome(g: Geometry, s: State, dir: nat, op: FileOp, ok: bool): Option<seq<Byte>> {
    var was := Held(s.files, op.name);
    match op
    case Put(name, data, append) =>
      if ok then
        if was.Some? || Visible(name) then Some((if append && was.Some? then was.value else []) + data) else None
      else if CanMake(g, s, dir, name) && Visible(name) then Some([]) else was
    case Remove(_) => if ok then None else was
  }

  /** The operation was done in state `a`, with that result, and left `b`. */
  ghost predicate Did(g: Geometry, dir: nat, a: State, b: State, op: FileOp, ok: bool)
    requires g.spc > 0
  {
    && b.files == With(a.files, op.name, Outcome(g, a, dir, op, ok))
    && match op
       case Put(name, data, append) => ok <==> Nameable(g, a.m, dir, name) && CanWrite(g, a.m, a.fat, dir, name, data, append)
       case Remove(name) => ok <==> Held(a.files, name).Some?
  }

  /** Good states and steps of a run, whatever they are. */
  type Good = State -> bool
  type Stepping = (State, State, FileOp, bool) -> bool

  ghost function GoodIn(g: Geometry, dir: nat): Good {
    s => StateOk(g, dir, s)
  }

  ghost function StepIn(g: Geometry, dir: nat): Stepping
    requires g.spc > 0
  {
    (a, b, op, ok) => Did(g, dir, a, b, op, ok)
  }

  /** The run did its operations one after the other, going through these states. */
  ghost predicate Traced(good: Good, step: Stepping, states: seq<State>, ops: seq<FileOp>, oks: seq<bool>)
    decreases |oks|
  {
    var m := |oks|;
    && |states| == m + 1 && m <= |ops| && good(states[m])
    && (m > 0 ==> Traced(good, step, states[..m], ops, oks[..m - 1]) && step(states[m - 1], states[m], ops[m - 1], oks[m - 1]))
  }

  lemma TracedMore(good: Good, step: Stepping, states: seq<State>, ops: seq<FileOp>, oks: seq<bool>, b: State, ok: bool)
    requires Traced(good, step, states, ops, oks) && |oks| < |ops| && good(b) && step(states[|oks|], b, ops[|oks|], ok)
    ensures Traced(good, step, states + [b], ops, oks + [ok])
  {
    assert (oks + [ok])[..|oks|] == oks && (states + [b])[..|oks| + 1] == states;
  }

  lemma {:induction false} TracedAt(good: Good, step: Stepping, states: seq<State>, ops: seq<FileOp>, oks: seq<bool>, i: nat)
    requires Traced(good, step, states, ops, oks) && i <= |oks|
    ensures good(states[i]) && (i < |oks| ==> good(states[i + 1]) && step(states[i], states[i + 1], ops[i], oks[i]))
    decreases |oks|
  {
    var m := |oks|;
    if i < m {
      TracedAt(good, step, states[..m], ops, oks[..m - 1], i);
      if i == m - 1 {
        assert states[..m][i] == states[i];
      }
    }
  }

  /** Whatever every step keeps of a name is kept over the run from state `i` on. */
  lemma {:induction false} KeptOverRun(good: Good, step: Stepping, states: seq<State>, ops: seq<FileOp>, oks: seq<bool>, n: Name, i: nat)
    requires Traced(good, step, states, ops, oks) && i <= |oks|
    requires forall a, b, op, ok :: step(a, b, op, ok) && !SameName(op.name, n) ==> Held(b.files, n) == Held(a.files, n)
    requires forall j :: i <= j < |oks| ==> !SameName(ops[j].name, n)
    ensures Held(states[|oks|].files, n) == Held(states[i].files, n)
    decreases |oks|
  {
    var m := |oks|;
    if i == m {
    } else {
      KeptOverRun(good, step, states[..m], ops, oks[..m - 1], n, i);
      assert step(states[m - 1], states[m], ops[m - 1], oks[m - 1]);
    }
  }

  lemma OtherHeld(files: Files, name: Name, value: Option<seq<Byte>>, n: Name)
    ensures Held(With(files, name, value), n) == if SameName(name, n) then value else Held(files, n)
  {
    KeyIsName(name, n);
  }

  lemma StepsKeep(g: Geometry, dir: nat, n: Name)
    requires g.spc > 0
    ensures forall a, b, op, ok :: StepIn(g, dir)(a, b, op, ok) && !SameName(op.name, n) ==> Held(b.files, n) == Held(a.files, n)
  {
    forall a, b, op, ok | StepIn(g, dir)(a, b, op, ok) && !SameName(op.name, n)
      ensures Held(b.files, n) == Held(a.files, n)
    {
      OtherHeld(a.files, op.name, Outcome(g, a, dir, op, ok), n);
    }
  }

  /** In a good state a name gives what the map holds. */
  lemma GoodFile(g: Geometry, dir: nat, s: State, n: Name)
    requires GoodIn(g, dir)(s)
    ensures File(g, s.m, dir, n) == Held(s.files, n)
  {
  }

  /** A name that no operation of the run is about gives what it gave. */
  lemma UntouchedOverRun(g: Geometry, dir: nat, states: seq<State>, ops: seq<FileOp>, oks: seq<bool>, n: Name)
    requires g.spc > 0 && Traced(GoodIn(g, dir), StepIn(g, dir), states, ops, oks)
    requires forall i :: 0 <= i < |oks| ==> !SameName(ops[i].name, n)
    ensures File(g, states[|oks|].m, dir, n) == File(g, states[0].m, dir, n)
  {
    var good, step := GoodIn(g, dir), StepIn(g, dir);
    StepsKeep(g, dir, n);
    KeptOverRun(good, step, states, ops, oks, n, 0);
    TracedAt(good, step, states, ops, oks, 0);
    TracedAt(good, step, states, ops, oks, |oks|);
    GoodFile(g, dir, states[0], n);
    GoodFile(g, dir, states[|oks|], n);
  }

  lemma StepOutcome(g: Geometry, dir: nat, a: State, b: State, op: FileOp, ok: bool)
    requires g.spc > 0 && StepIn(g, dir)(a, b, op, ok)
    ensures Held(b.files, op.name) == Outcome(g, a, dir, op, ok)
  {
    OtherHeld(a.files, op.name, Outcome(g, a, dir, op, ok), op.name);
  }

  /** What a name holds at the end of a run is what the last step on it left. */
  lemma HeldAtLast(good: Good, step: Stepping, states: seq<State>, ops: seq<FileOp>, oks: seq<bool>, i: nat)
    requires Traced(good, step, states, ops, oks) && i < |oks|
    requires forall a, b, op, ok :: step(a, b, op, ok) && !SameName(op.name, ops[i].name) ==>
               Held(b.files, ops[i].name) == Held(a.files, ops[i].name)
    requires forall j :: i < j < |oks| ==> !SameName(ops[j].name, ops[i].name)
    ensures good(states[|oks|]) && step(states[i], states[i + 1], ops[i], oks[i])
    ensures Held(states[|oks|].files, ops[i].name) == Held(states[i + 1].files, ops[i].name)
  {
    KeptOverRun(good, step, states, ops, oks, ops[i].name, i + 1);
    TracedAt(good, step, states, ops, oks, i);
  }

  /** The last operation on a name decides what it gives at the end of the run. */
  lemma LastOverRun(g: Geometry, dir: nat, states: seq<State>, ops: seq<FileOp>, oks: seq<bool>, i: nat)
    requires g.spc > 0 && Traced(GoodIn(g, dir), StepIn(g, dir), states, ops, oks) && i < |oks|
    requires forall j :: i < j < |oks| ==> !SameName(ops[j].name, ops[i].name)
    ensures File(g, states[|oks|].m, dir, ops[i].name) == Outcome(g, states[i], dir, ops[i], oks[i])
  {
    StepsKeep(g, dir, ops[i].name);
    HeldAtLast(GoodIn(g, dir), StepIn(g, dir), states, ops, oks, i);
    StepOutcome(g, dir, states[i], states[i + 1], ops[i], oks[i]);
    GoodFile(g, dir, states[|oks|], ops[i].name);
  }

  // ----- Runs -----

  ghost function Now(v: Volume, files: Files): State
    reads v, v.disk
  {
    State(ImageOf(v), v.fat, files)
  }

  lemma HeldAsBefore(g: Geometry, s: State, dir: nat, name: Name, append: bool)
    requires Agrees(g, s.m, dir, s.files)
    ensures HeldBefore(g, s.m, dir, name, append) ==
            if append && Held(s.files, name).Some? then Held(s.files, name).value else []
  {
    assert File(g, s.m, dir, name) == Held(s.files, name);
  }

  lemma WroteStep(g: Geometry, dir: nat, a: State, m: Image, fat: seq<nat>, op: FileOp)
    requires g.spc > 0 && StateOk(g, dir, a) && op.Put? && ImageOk(g, m, fat) && Strict(g, m, dir)
    requires Nameable(g, a.m, dir, op.name) && CanWrite(g, a.m, a.fat, dir, op.name, op.data, op.append)
    requires Wrote(g, a.m, m, dir, op.name, HeldBefore(g, a.m, dir, op.name, op.append) + op.data)
    ensures var b := State(m, fat, With(a.files, op.name, Outcome(g, a, dir, op, true)));
            StateOk(g, dir, b) && Did(g, dir, a, b, op, true)
  {
    HeldAsBefore(g, a, dir, op.name, op.append);
    assert File(g, a.m, dir, op.name) == Held(a.files, op.name);
    AgreesWith(g, a.m, m, dir, a.files, op.name, Outcome(g, a, dir, op, true));
  }

  lemma FailedStep(g: Geometry, dir: nat, a: State, m: Image, fat: seq<nat>, op: FileOp)
    requires g.spc > 0 && StateOk(g, dir, a) && op.Put? && ImageOk(g, m, fat) && Strict(g, m, dir)
    requires !CanWrite(g, a.m, a.fat, dir, op.name, op.data, op.append) && !Overwrites(g, a.m, dir, op.name, op.append)
    requires Failed(g, a.m, m, dir, op.name, op.append, EntryTakes(g, a.m, dir, op.name) <= |Unused(a.fat, g.total)|)
    ensures var b := State(m, fat, With(a.files, op.name, Outcome(g, a, dir, op, false)));
            StateOk(g, dir, b) && Did(g, dir, a, b, op, false)
  {
    assert File(g, a.m, dir, op.name) == Held(a.files, op.name);
    AgreesWith(g, a.m, m, dir, a.files, op.name, Outcome(g, a, dir, op, false));
  }

  lemma IdleStep(g: Geometry, dir: nat, a: State, op: FileOp)
    requires g.spc > 0 && StateOk(g, dir, a) && Outcome(g, a, dir, op, false) == Held(a.files, op.name)
    requires if op.Put? then !Nameable(g, a.m, dir, op.name) else Held(a.files, op.name).None?
    ensures Did(g, dir, a, a, op, false)
  {
    NothingWith(a.files, op.name);
  }

  lemma DeletedStep(g: Geometry, dir: nat, a: State, m: Image, fat: seq<nat>, op: FileOp)
    requires g.spc > 0 && StateOk(g, dir, a) && op.Remove? && ImageOk(g, m, fat) && DirOk(g, m, dir) && Strict(g, m, dir)
    requires Held(a.files, op.name).Some? && Deleted(g, a.m, m, dir, op.name) && File(g, m, dir, op.name) == None
    ensures var b := State(m, fat, With(a.files, op.name, None));
            StateOk(g, dir, b) && Did(g, dir, a, b, op, true)
  {
    AgreesWith(g, a.m, m, dir, a.files, op.name, None);
    assert Outcome(g, a, dir, op, true) == None;
  }

  /** A program writes files under names that are there or have the 8.3 form. */
  method ServePut(v: Volume, dir: nat, op: FileOp, ghost files: Files) returns (ok: bool, lost: bool)
    requires v.Valid() && StateOk(v.g, dir, Now(v, files)) && op.Put?
    requires Fits(v.g, |HeldBefore(v.g, ImageOf(v), dir, op.name, op.append)|, |op.data|)
    modifies v, v.disk
    ensures v.Valid()
    ensures lost ==> Loses(v.g, old(Now(v, files)), dir, op)
    ensures !lost ==>
              var b := Now(v, With(files, op.name, Outcome(v.g, old(Now(v, files)), dir, op, ok)));
              StateOk(v.g, dir, b) && Did(v.g, dir, old(Now(v, files)), b, op, ok)
  {
    ghost var a := Now(v, files);
    NeverFaults(v.g, ImageOf(v), dir, {}, op.name);
    var found, e, cluster, offset, fault, at := FindEntry(v, dir, op.name);
    if !found && !PlainName(op.name) {
      IdleStep(v.g, dir, a, op);
      NothingWith(files, op.name);
      return false, false;
    }
    ok, lost := WriteFile(v, dir, op.name, op.data, op.append);
    PutStep(v.g, dir, a, ImageOf(v), v.fat, op, ok, lost);
  }

  lemma PutStep(g: Geometry, dir: nat, a: State, m: Image, fat: seq<nat>, op: FileOp, ok: bool, lost: bool)
    requires g.spc > 0 && StateOk(g, dir, a) && op.Put? && ImageOk(g, m, fat) && Strict(g, m, dir) && Nameable(g, a.m, dir, op.name)
    requires ok <==> CanWrite(g, a.m, a.fat, dir, op.name, op.data, op.append)
    requires lost <==> !ok && Overwrites(g, a.m, dir, op.name, op.append)
    requires ok ==> Wrote(g, a.m, m, dir, op.name, HeldBefore(g, a.m, dir, op.name, op.append) + op.data)
    requires !ok ==> Failed(g, a.m, m, dir, op.name, op.append, EntryTakes(g, a.m, dir, op.name) <= |Unused(a.fat, g.total)|)
    ensures lost ==> Loses(g, a, dir, op)
    ensures !lost ==>
              var b := State(m, fat, With(a.files, op.name, Outcome(g, a, dir, op, ok)));
              StateOk(g, dir, b) && Did(g, dir, a, b, op, ok)
  {
    if lost {
      assert File(g, a.m, dir, op.name) == Held(a.files, op.name);
    } else if ok {
      WroteStep(g, dir, a, m, fat, op);
    } else {
      FailedStep(g, dir, a, m, fat, op);
    }
  }

  /** It deletes files and leaves directories alone. */
  method ServeRemove(v: Volume, dir: nat, op: FileOp, ghost files: Files) returns (ok: bool)
    requires v.Valid() && StateOk(v.g, dir, Now(v, files)) && op.Remove?
    modifies v, v.disk
    ensures v.Valid()
    ensures var b := Now(v, With(files, op.name, Outcome(v.g, old(Now(v, files)), dir, op, ok)));
            StateOk(v.g, dir, b) && Did(v.g, dir, old(Now(v, files)), b, op, ok)
  {
    ghost var a := Now(v, files);
    NeverFaults(v.g, ImageOf(v), dir, {}, op.name);
    StrictDeletable(v.g, ImageOf(v), dir, op.name);
    assert File(v.g, a.m, dir, op.name) == Held(files, op.name);
    var found, e, cluster, offset, fault, at := FindEntry(v, dir, op.name);
    if !found || IsDir(e) {
      IdleStep(v.g, dir, a, op);
      NothingWith(files, op.name);
      return false;
    }
    ghost var lo;
    ok, lo := DeleteFile(v, dir, op.name);
    DeletedStep(v.g, dir, a, ImageOf(v), v.fat, op);
  }

  function Written(op: FileOp): nat {
    if op.Put? then |op.data| else 0
  }

  function TotalWritten(ops: seq<FileOp>): nat {
    if ops == [] then 0 else TotalWritten(ops[..|ops| - 1]) + Written(ops[|ops| - 1])
  }

  lemma {:induction false} TotalGrows(ops: seq<FileOp>, i: nat)
    requires i <= |ops|
    ensures TotalWritten(ops[..i]) <= TotalWritten(ops)
    decreases |ops|
  {
    if i == |ops| {
      assert ops[..i] == ops;
    } else {
      TotalGrows(ops[..|ops| - 1], i);
      assert ops[..|ops| - 1][..i] == ops[..i];
    }
  }

  /** No file is longer than that. */
  ghost predicate AtMost(files: Files, most: nat) {
    forall k :: k in files ==> |files[k]| <= most
  }

  lemma StillAtMost(g: Geometry, a: State, dir: nat, op: FileOp, ok: bool, most: nat)
    requires AtMost(a.files, most)
    ensures AtMost(With(a.files, op.name, Outcome(g, a, dir, op, ok)), most + Written(op))
  {
  }

  lemma StillFits(g: Geometry, s: State, dir: nat, op: FileOp, most: nat)
    requires Agrees(g, s.m, dir, s.files) && AtMost(s.files, most) && op.Put? && most + |op.data| + g.spc * SECTOR <= WORD
    ensures Fits(g, |HeldBefore(g, s.m, dir, op.name, op.append)|, |op.data|)
  {
    HeldAsBefore(g, s, dir, op.name, op.append);
  }

  /**
   * Any run of writes, appends and deletions, up to one that loses the file it overwrites. `states` are the
   * states it goes through: in each of them the directory is good and its files are those of the map, which
   * changes by one name at a time.
   */
  method Run(v: Volume, dir: nat, ops: seq<FileOp>, ghost files: Files, ghost most: nat)
    returns (oks: seq<bool>, lost: bool, ghost states: seq<State>)
    requires v.Valid() && StateOk(v.g, dir, Now(v, files)) && AtMost(files, most)
    requires most + TotalWritten(ops) + v.g.spc * SECTOR <= WORD
    modifies v, v.disk
    ensures v.Valid() && Traced(GoodIn(v.g, dir), StepIn(v.g, dir), states, ops, oks) && states[0] == old(Now(v, files))
    ensures !lost ==> |oks| == |ops| && states[|oks|] == Now(v, states[|oks|].files)
    ensures lost ==> |oks| < |ops| && Loses(v.g, states[|oks|], dir, ops[|oks|])
  {
    oks, lost, states := [], false, [Now(v, files)];
    ghost var held, good, step := files, GoodIn(v.g, dir), StepIn(v.g, dir);
    for i := 0 to |ops|
      invariant v.Valid() && |oks| == i && Traced(good, step, states, ops, oks) && states[0] == old(Now(v, files))
      invariant good(Now(v, held)) && states[i] == Now(v, held) && AtMost(held, most + TotalWritten(ops[..i]))
    {
      TotalStep(ops, i);
      var ok;
      ok, lost, held := Serve(v, dir, ops[i], held, most + TotalWritten(ops[..i]), good, step);
      if lost {
        return;
      }
      TracedMore(good, step, states, ops, oks, Now(v, held), ok);
      oks, states := oks + [ok], states + [Now(v, held)];
    }
  }

  lemma TotalStep(ops: seq<FileOp>, i: nat)
    requires i < |ops|
    ensures TotalWritten(ops[..i]) + Written(ops[i]) == TotalWritten(ops[..i + 1]) <= TotalWritten(ops)
  {
    assert ops[..i + 1][..i] == ops[..i];
    TotalGrows(ops, i + 1);
  }

  /** A file would be overwritten, and there are not clusters enough. */
  ghost predicate Loses(g: Geometry, s: State, dir: nat, op: FileOp)
    requires g.spc > 0
  {
    op.Put? && !op.append && Held(s.files, op.name).Some? && !CanWrite(g, s.m, s.fat, dir, op.name, op.data, false)
  }

  method Serve(v: Volume, dir: nat, op: FileOp, ghost files: Files, ghost most: nat, ghost good: Good, ghost step: Stepping)
    returns (ok: bool, lost: bool, ghost held: Files)
    requires v.Valid() && good == GoodIn(v.g, dir) && step == StepIn(v.g, dir) && good(Now(v, files))
    requires AtMost(files, most) && most + Written(op) + v.g.spc * SECTOR <= WORD
    modifies v, v.disk
    ensures v.Valid() && (lost ==> Loses(v.g, old(Now(v, files)), dir, op))
    ensures !lost ==> good(Now(v, held)) && step(old(Now(v, files)), Now(v, held), op, ok) && AtMost(held, most + Written(op))
  {
    ghost var a := Now(v, files);
    lost := false;
    if op.Put? {
      StillFits(v.g, a, dir, op, most);
      ok, lost := ServePut(v, dir, op, files);
    } else {
      ok := ServeRemove(v, dir, op, files);
    }
    held := With(files, op.name, Outcome(v.g, a, dir, op, ok));
    StillAtMost(v.g, a, dir, op, ok, most);
  }
}
