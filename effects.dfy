/** What a rotation that succeeds leaves on disk: where the old base file
    went, what the caller's descriptor refers to afterwards, which archives
    are gone and which are untouched. */
module Effects {
  import opened Common
  import opened ArchiveSpec
  import opened Enumerator
  import opened FileSystem
  import opened Strategies

  /** A run that succeeds met no stop and no refused call. */
  lemma {:induction false} RunOkNoOverflow(d: Disk, calls: seq<Call>)
    requires Run(d, calls).ok
    ensures forall c :: c in calls ==> !c.Overflow?
    decreases |calls|
  {
    if calls != [] {
      var next := Perform(d, calls[0]).value;
      RunOkNoOverflow(next, calls[1..]);
      assert forall c :: c in calls ==> c == calls[0] || c in calls[1..];
    }
  }

  /** The base file after the move to `name` and the reopen: the old base file
      sits at `name`, `base` is a new file, and every other path is as before. */
  lemma MoveAndReopen(d: Disk, base: string, name: string, slot: int)
    requires name != base
    requires Perform(d, Rename(base, name)).Some?
    requires Perform(Perform(d, Rename(base, name)).value, Reopen(base, slot)).Some?
    ensures var d2 := Perform(Perform(d, Rename(base, name)).value, Reopen(base, slot)).value;
      && base in d.files
      && name in d2.files && d2.files[name] == d.files[base]
      && base in d2.files && d2.files[base] == d.nextId
      && (forall p :: p in d.files && p != base && p != name ==> p in d2.files && d2.files[p] == d.files[p])
  {
  }

  /** A successful run of the unlinks of positions 0 .. hi-1 removes each of
      those archives, leaves the descriptors alone, and keeps every path that is
      not one of their names. */
  lemma DropsUpEffect(d: Disk, l: Layout, maxLenPath: nat, files: seq<nat>, hi: nat)
    requires WellFormed(l) && hi <= |files|
    requires Run(d, DropsUp(l, maxLenPath, files, hi)).ok
    ensures var e := Run(d, DropsUp(l, maxLenPath, files, hi)).disk;
      && e.slots == d.slots
      && (forall i :: 0 <= i < hi ==>
            ArchiveName(l, maxLenPath, files[i]).Some? && ArchiveName(l, maxLenPath, files[i]).value !in e.files)
      && (forall p :: p in d.files && (forall i :: 0 <= i < hi ==> ArchiveName(l, maxLenPath, files[i]) != Some(p))
            ==> p in e.files && e.files[p] == d.files[p])
  {
    var drops := DropsUp(l, maxLenPath, files, hi);
    var e := Run(d, drops).disk;
    DropsUpAt(l, maxLenPath, files, hi);
    DropsUpOnlyUnlinks(l, maxLenPath, files, hi);
    RunUnlinks(d, drops);
    forall i | 0 <= i < hi
      ensures ArchiveName(l, maxLenPath, files[i]).Some? && ArchiveName(l, maxLenPath, files[i]).value !in e.files
    {
      assert drops[i] in drops;
    }
    forall p | p in d.files && (forall i :: 0 <= i < hi ==> ArchiveName(l, maxLenPath, files[i]) != Some(p))
      ensures p in e.files && e.files[p] == d.files[p]
    {
      assert forall t :: 0 <= t < |drops| ==> drops[t] != Unlink(p);
    }
  }

  /** The pruning of SEQUENCE issues nothing but unlinks. */
  lemma DropsUpOnlyUnlinks(l: Layout, maxLenPath: nat, files: seq<nat>, hi: nat)
    requires WellFormed(l) && hi <= |files|
    ensures forall c :: c in DropsUp(l, maxLenPath, files, hi) ==> c.Unlink? || c.Overflow?
  {
    var drops := DropsUp(l, maxLenPath, files, hi);
    DropsUpAt(l, maxLenPath, files, hi);
    forall c | c in drops
      ensures c.Unlink? || c.Overflow?
    {
      var t :| 0 <= t < |drops| && drops[t] == c;
    }
  }

  /** The SEQUENCE run is the move, the reopen, then the unlinks. */
  lemma SeqSplit(d: Disk, l: Layout, maxLenPath: nat, base: string, files: seq<nat>, maxCount: int, slot: int)
    requires WellFormed(l)
    requires Run(d, SeqPlan(l, maxLenPath, base, files, maxCount, slot)).ok
    ensures ArchiveName(l, maxLenPath, SeqNext(files)).Some?
    ensures var n := ArchiveName(l, maxLenPath, SeqNext(files)).value;
      var d1 := Perform(d, Rename(base, n));
      && d1.Some?
      && Perform(d1.value, Reopen(base, slot)).Some?
      && Run(d, SeqPlan(l, maxLenPath, base, files, maxCount, slot))
         == Run(Perform(d1.value, Reopen(base, slot)).value, DropsUp(l, maxLenPath, files, SeqPruneCount(|files|, maxCount)))
  {
    var plan := SeqPlan(l, maxLenPath, base, files, maxCount, slot);
    var drops := DropsUp(l, maxLenPath, files, SeqPruneCount(|files|, maxCount));
    var move := MoveTo(l, maxLenPath, base, SeqNext(files));
    RunOkNoOverflow(d, plan);
    assert plan[0] == move;
    assert plan == [move] + ([Reopen(base, slot)] + drops);
    RunCons(d, move, [Reopen(base, slot)] + drops);
    RunCons(Perform(d, move).value, Reopen(base, slot), drops);
  }

  /** SEQUENCE, when every call succeeds and no archive name is the base path:
      the old base file is archived as generation SeqNext, the caller's
      descriptor refers to a new base file, the SeqPruneCount oldest archives
      are gone, and every other path is untouched. */
  lemma SeqEffect(d: Disk, l: Layout, maxLenPath: nat, base: string, files: seq<nat>, maxCount: int, slot: int)
    requires WellFormed(l) && Sorted(files) && FreshAbove(d)
    requires forall k :: ArchiveName(l, maxLenPath, k) != Some(base)
    requires Run(d, SeqPlan(l, maxLenPath, base, files, maxCount, slot)).ok
    ensures ArchiveName(l, maxLenPath, SeqNext(files)).Some?
    ensures var e := Run(d, SeqPlan(l, maxLenPath, base, files, maxCount, slot)).disk;
      var n := ArchiveName(l, maxLenPath, SeqNext(files)).value;
      var prune := SeqPruneCount(|files|, maxCount);
      && base in d.files
      && n in e.files && e.files[n] == d.files[base]
      && base in e.files && e.files[base] !in d.files.Values
      && slot in e.slots && e.slots[slot] == e.files[base]
      && (forall i :: 0 <= i < prune ==>
            ArchiveName(l, maxLenPath, files[i]).Some? && ArchiveName(l, maxLenPath, files[i]).value !in e.files)
      && (forall p :: p in d.files && p != base && p != n
            && (forall i :: 0 <= i < prune ==> ArchiveName(l, maxLenPath, files[i]) != Some(p))
            ==> p in e.files && e.files[p] == d.files[p])
  {
    var prune := SeqPruneCount(|files|, maxCount);
    SeqSplit(d, l, maxLenPath, base, files, maxCount, slot);
    var n := ArchiveName(l, maxLenPath, SeqNext(files)).value;
    var d1 := Perform(d, Rename(base, n)).value;
    var d2 := Perform(d1, Reopen(base, slot)).value;
    var e := Run(d2, DropsUp(l, maxLenPath, files, prune)).disk;
    assert e == Run(d, SeqPlan(l, maxLenPath, base, files, maxCount, slot)).disk;
    MoveAndReopen(d, base, n, slot);
    DropsUpEffect(d2, l, maxLenPath, files, prune);
    SeqNextNotDropped(l, maxLenPath, files, prune);
    DropsUpKeeps(d2, l, maxLenPath, files, prune, n);
    DropsUpKeeps(d2, l, maxLenPath, files, prune, base);
  }

  /** The name SEQUENCE archives under is none of the names it drops. */
  lemma SeqNextNotDropped(l: Layout, maxLenPath: nat, files: seq<nat>, hi: nat)
    requires WellFormed(l) && Sorted(files) && hi <= |files|
    requires ArchiveName(l, maxLenPath, SeqNext(files)).Some?
    ensures forall i :: 0 <= i < hi ==> ArchiveName(l, maxLenPath, files[i]) != ArchiveName(l, maxLenPath, SeqNext(files))
  {
    SeqNextAboveAll(files);
    forall i | 0 <= i < hi
      ensures ArchiveName(l, maxLenPath, files[i]) != ArchiveName(l, maxLenPath, SeqNext(files))
    {
      DropLeavesOthers(l, maxLenPath, files[i], SeqNext(files));
    }
  }

  /** A path that is none of the dropped names survives a run of DropsUp
      with the same file. */
  lemma DropsUpKeeps(d: Disk, l: Layout, maxLenPath: nat, files: seq<nat>, hi: nat, p: string)
    requires WellFormed(l) && hi <= |files|
    requires Run(d, DropsUp(l, maxLenPath, files, hi)).ok
    requires p in d.files
    requires forall i :: 0 <= i < hi ==> ArchiveName(l, maxLenPath, files[i]) != Some(p)
    ensures var e := Run(d, DropsUp(l, maxLenPath, files, hi)).disk;
      p in e.files && e.files[p] == d.files[p]
  {
    DropsUpEffect(d, l, maxLenPath, files, hi);
  }

  /** The archive path of generation k, for generations known to fit. */
  function NameOf(l: Layout, maxLenPath: nat, k: nat): string
    requires WellFormed(l) && ArchiveName(l, maxLenPath, k).Some?
  {
    ArchiveName(l, maxLenPath, k).value
  }

  /** What the ROLLING shifts of positions limit-1 down to i do to d when record
      p holds index p: each archive i .. limit-1 moves up one generation,
      generation i is left empty, and no other path and no descriptor changes. */
  ghost predicate ShiftedFrom(d: Disk, e: Disk, l: Layout, maxLenPath: nat, limit: nat, i: nat)
    requires WellFormed(l) && i <= limit
    requires forall k :: 0 <= k <= limit ==> ArchiveName(l, maxLenPath, k).Some?
  {
    && e.slots == d.slots && e.nextId == d.nextId
    && (forall k :: i <= k < limit ==> NameOf(l, maxLenPath, k) in d.files)
    && (forall k :: i < k <= limit ==>
          NameOf(l, maxLenPath, k) in e.files && e.files[NameOf(l, maxLenPath, k)] == d.files[NameOf(l, maxLenPath, k - 1)])
    && (i < limit ==> NameOf(l, maxLenPath, i) !in e.files)
    && (forall p :: (forall k :: i <= k <= limit ==> p != NameOf(l, maxLenPath, k)) ==>
          (p in e.files <==> p in d.files) && (p in d.files ==> e.files[p] == d.files[p]))
  }

  /** The shifts of positions limit-1 down to i, run from d with record p
      holding index p, reach a ShiftedFrom state. */
  lemma {:induction false} ShiftsEffect(d: Disk, l: Layout, maxLenPath: nat, files: seq<nat>, limit: nat, i: nat)
    requires WellFormed(l) && i <= limit <= |files|
    requires forall p :: 0 <= p < |files| ==> files[p] == p
    requires forall k :: 0 <= k <= limit ==> ArchiveName(l, maxLenPath, k).Some?
    requires Run(d, Shifts(l, maxLenPath, files, limit, i)).ok
    ensures ShiftedFrom(d, Run(d, Shifts(l, maxLenPath, files, limit, i)).disk, l, maxLenPath, limit, i)
    decreases limit - i
  {
    if i < limit {
      var prev := Shifts(l, maxLenPath, files, limit, i + 1);
      var c := ShiftCall(l, maxLenPath, files[i], i + 1);
      assert c == Rename(NameOf(l, maxLenPath, i), NameOf(l, maxLenPath, i + 1));
      assert Shifts(l, maxLenPath, files, limit, i) == prev + [c];
      RunAppend(d, prev, [c]);
      RunCons(Run(d, prev).disk, c, []);
      ShiftsEffect(d, l, maxLenPath, files, limit, i + 1);
      ShiftStep(d, Run(d, prev).disk, Perform(Run(d, prev).disk, c).value, l, maxLenPath, limit, i);
    }
  }

  /** One step of the shifts: from a ShiftedFrom state for i + 1, the rename of
      generation i to generation i + 1 reaches the ShiftedFrom state for i. */
  lemma ShiftStep(d: Disk, mid: Disk, e: Disk, l: Layout, maxLenPath: nat, limit: nat, i: nat)
    requires WellFormed(l) && i < limit
    requires forall k :: 0 <= k <= limit ==> ArchiveName(l, maxLenPath, k).Some?
    requires ShiftedFrom(d, mid, l, maxLenPath, limit, i + 1)
    requires Perform(mid, Rename(NameOf(l, maxLenPath, i), NameOf(l, maxLenPath, i + 1))) == Some(e)
    ensures ShiftedFrom(d, e, l, maxLenPath, limit, i)
  {
    var from, to := NameOf(l, maxLenPath, i), NameOf(l, maxLenPath, i + 1);
    PerformRename(mid, from, to);
    if from == to {
      NameInjective(l, maxLenPath, i, i + 1);
    }
    // `from` was untouched by the earlier shifts.
    forall k | i < k <= limit
      ensures NameOf(l, maxLenPath, k) != from
    {
      if NameOf(l, maxLenPath, k) == from {
        NameInjective(l, maxLenPath, k, i);
      }
    }
    assert from in d.files && mid.files[from] == d.files[from];
    forall k | i + 1 < k <= limit
      ensures NameOf(l, maxLenPath, k) in e.files
      ensures e.files[NameOf(l, maxLenPath, k)] == d.files[NameOf(l, maxLenPath, k - 1)]
    {
      // `to` is empty after the earlier shifts, while generation k is not.
      assert to !in mid.files && NameOf(l, maxLenPath, k) in mid.files;
    }
    forall p | forall k :: i <= k <= limit ==> p != NameOf(l, maxLenPath, k)
      ensures (p in e.files <==> p in d.files) && (p in d.files ==> e.files[p] == d.files[p])
    {
      assert p != from && p != to;
    }
  }

  /** The pruning of ROLLING issues nothing but unlinks. */
  lemma DropsDownOnlyUnlinks(l: Layout, maxLenPath: nat, files: seq<nat>, i: nat)
    requires WellFormed(l) && i <= |files|
    ensures forall c :: c in DropsDown(l, maxLenPath, files, i) ==> c.Unlink? || c.Overflow?
  {
    var drops := DropsDown(l, maxLenPath, files, i);
    DropsDownAt(l, maxLenPath, files, i);
    forall c | c in drops
      ensures c.Unlink? || c.Overflow?
    {
      var t :| 0 <= t < |drops| && drops[t] == c;
    }
  }

  /** A successful run of the unlinks of positions |files|-1 down to i removes
      each of those archives, leaves the descriptors alone, and keeps every path
      that is not one of their names. */
  lemma DropsDownEffect(d: Disk, l: Layout, maxLenPath: nat, files: seq<nat>, i: nat)
    requires WellFormed(l) && i <= |files|
    requires Run(d, DropsDown(l, maxLenPath, files, i)).ok
    ensures var e := Run(d, DropsDown(l, maxLenPath, files, i)).disk;
      && e.slots == d.slots
      && (forall q :: i <= q < |files| ==>
            ArchiveName(l, maxLenPath, files[q]).Some? && ArchiveName(l, maxLenPath, files[q]).value !in e.files)
      && (forall p :: p in d.files && (forall q :: i <= q < |files| ==> ArchiveName(l, maxLenPath, files[q]) != Some(p))
            ==> p in e.files && e.files[p] == d.files[p])
  {
    var drops := DropsDown(l, maxLenPath, files, i);
    var e := Run(d, drops).disk;
    DropsDownAt(l, maxLenPath, files, i);
    DropsDownOnlyUnlinks(l, maxLenPath, files, i);
    RunUnlinks(d, drops);
    forall q | i <= q < |files|
      ensures ArchiveName(l, maxLenPath, files[q]).Some? && ArchiveName(l, maxLenPath, files[q]).value !in e.files
    {
      assert drops[|files| - 1 - q] in drops;
    }
    forall p | p in d.files && (forall q :: i <= q < |files| ==> ArchiveName(l, maxLenPath, files[q]) != Some(p))
      ensures p in e.files && e.files[p] == d.files[p]
    {
      assert forall t :: 0 <= t < |drops| ==> drops[t] != Unlink(p);
    }
  }

  /** The ROLLING run is the shifts, the move, the reopen, then the unlinks. */
  lemma RollSplit(d: Disk, l: Layout, maxLenPath: nat, base: string, files: seq<nat>, maxCount: int, slot: int)
    requires WellFormed(l)
    requires Run(d, RollPlan(l, maxLenPath, base, files, maxCount, slot)).ok
    ensures ArchiveName(l, maxLenPath, 0).Some?
    ensures var limit := RollLimit(|files|, maxCount);
      var shifted := Run(d, Shifts(l, maxLenPath, files, limit, 0));
      var d1 := Perform(shifted.disk, Rename(base, ArchiveName(l, maxLenPath, 0).value));
      && shifted.ok
      && d1.Some?
      && Perform(d1.value, Reopen(base, slot)).Some?
      && Run(d, RollPlan(l, maxLenPath, base, files, maxCount, slot))
         == Run(Perform(d1.value, Reopen(base, slot)).value,
                if maxCount > 0 then DropsDown(l, maxLenPath, files, limit + 1) else [])
  {
    var limit := RollLimit(|files|, maxCount);
    var plan := RollPlan(l, maxLenPath, base, files, maxCount, slot);
    var shifts := Shifts(l, maxLenPath, files, limit, 0);
    var drops := if maxCount > 0 then DropsDown(l, maxLenPath, files, limit + 1) else [];
    var move := MoveTo(l, maxLenPath, base, 0);
    RollPlanParts(l, maxLenPath, base, files, maxCount, slot);
    RunOkNoOverflow(d, plan);
    RunAppend(d, shifts, [move] + ([Reopen(base, slot)] + drops));
    var shifted := Run(d, shifts).disk;
    RunCons(shifted, move, [Reopen(base, slot)] + drops);
    RunCons(Perform(shifted, move).value, Reopen(base, slot), drops);
  }

  /** A ROLLING plan is the shifts, followed by the move, the reopen and
      the unlinks. */
  lemma RollPlanParts(l: Layout, maxLenPath: nat, base: string, files: seq<nat>, maxCount: int, slot: int)
    requires WellFormed(l)
    ensures var limit := RollLimit(|files|, maxCount);
      var plan := RollPlan(l, maxLenPath, base, files, maxCount, slot);
      var drops := if maxCount > 0 then DropsDown(l, maxLenPath, files, limit + 1) else [];
      && MoveTo(l, maxLenPath, base, 0) in plan
      && plan == Shifts(l, maxLenPath, files, limit, 0) + ([MoveTo(l, maxLenPath, base, 0)] + ([Reopen(base, slot)] + drops))
  {
    var limit := RollLimit(|files|, maxCount);
    var plan := RollPlan(l, maxLenPath, base, files, maxCount, slot);
    var shifts := Shifts(l, maxLenPath, files, limit, 0);
    var drops := if maxCount > 0 then DropsDown(l, maxLenPath, files, limit + 1) else [];
    var move := MoveTo(l, maxLenPath, base, 0);
    Regroup(shifts, move, Reopen(base, slot), drops);
  }

  /** Two calls between two runs of calls, grouped from the right. */
  lemma Regroup(a: seq<Call>, x: Call, y: Call, b: seq<Call>)
    ensures a + [x, y] + b == a + ([x] + ([y] + b))
    ensures x in a + [x, y] + b
  {
    assert (a + [x, y] + b)[|a|] == x;
  }

  /** ROLLING up to the move: the shifts, then the move of the base file to
      generation 0. */
  lemma RollMoveEffect(d: Disk, l: Layout, maxLenPath: nat, base: string, files: seq<nat>, limit: nat)
    requires WellFormed(l) && limit <= |files|
    requires forall p :: 0 <= p < |files| ==> files[p] == p
    requires forall k :: 0 <= k <= limit ==> ArchiveName(l, maxLenPath, k).Some?
    requires forall k :: 0 <= k <= limit ==> NameOf(l, maxLenPath, k) != base
    requires Run(d, Shifts(l, maxLenPath, files, limit, 0)).ok
    requires Perform(Run(d, Shifts(l, maxLenPath, files, limit, 0)).disk, Rename(base, NameOf(l, maxLenPath, 0))).Some?
    ensures var shifted := Run(d, Shifts(l, maxLenPath, files, limit, 0)).disk;
      var d1 := Perform(shifted, Rename(base, NameOf(l, maxLenPath, 0))).value;
      && base in d.files && base !in d1.files && d1.slots == d.slots && d1.nextId == d.nextId
      && NameOf(l, maxLenPath, 0) in d1.files && d1.files[NameOf(l, maxLenPath, 0)] == d.files[base]
      && (forall k :: 0 <= k < limit ==> NameOf(l, maxLenPath, k) in d.files)
      && (forall k :: 1 <= k <= limit ==>
            NameOf(l, maxLenPath, k) in d1.files && d1.files[NameOf(l, maxLenPath, k)] == d.files[NameOf(l, maxLenPath, k - 1)])
      && (forall p :: p in d.files && p != base && (forall k :: 0 <= k <= limit ==> p != NameOf(l, maxLenPath, k))
            ==> p in d1.files && d1.files[p] == d.files[p])
  {
    var n0 := NameOf(l, maxLenPath, 0);
    var shifted := Run(d, Shifts(l, maxLenPath, files, limit, 0)).disk;
    ShiftsEffect(d, l, maxLenPath, files, limit, 0);
    PerformRename(shifted, base, n0);
    var d1 := Perform(shifted, Rename(base, n0)).value;
    assert base in shifted.files && shifted.files[base] == d.files[base];
    forall k | 1 <= k <= limit
      ensures NameOf(l, maxLenPath, k) in d1.files
      ensures d1.files[NameOf(l, maxLenPath, k)] == d.files[NameOf(l, maxLenPath, k - 1)]
    {
      // Generation 0 was emptied by the shifts, generation k was filled.
      assert n0 !in shifted.files && NameOf(l, maxLenPath, k) in shifted.files;
    }
  }

  /** What a successful ROLLING rotation leaves in `e`, starting from `d`: the
      old base file is generation 0, archives 0 .. limit-1 each moved up one
      generation, the caller's descriptor refers to a new base file, with a
      positive max_count the archives after position limit are gone, and every
      path that is neither the base nor an archive name is untouched. */
  ghost predicate Rolled(d: Disk, e: Disk, l: Layout, maxLenPath: nat, base: string, files: seq<nat>, maxCount: int, slot: int)
    requires WellFormed(l)
    requires forall k :: 0 <= k && (k < |files| || k <= RollLimit(|files|, maxCount)) ==> ArchiveName(l, maxLenPath, k).Some?
  {
    var limit := RollLimit(|files|, maxCount);
      && base in d.files
      && NameOf(l, maxLenPath, 0) in e.files && e.files[NameOf(l, maxLenPath, 0)] == d.files[base]
      && (forall k :: 0 <= k < limit ==> NameOf(l, maxLenPath, k) in d.files)
      && (forall k :: 1 <= k <= limit ==>
            NameOf(l, maxLenPath, k) in e.files && e.files[NameOf(l, maxLenPath, k)] == d.files[NameOf(l, maxLenPath, k - 1)])
      && base in e.files && e.files[base] !in d.files.Values
      && slot in e.slots && e.slots[slot] == e.files[base]
      && (maxCount > 0 ==> forall k :: limit < k < |files| ==> NameOf(l, maxLenPath, k) !in e.files)
      && (forall p :: p in d.files && p != base && (forall k :: 0 <= k && (k < |files| || k <= RollLimit(|files|, maxCount)) ==> p != NameOf(l, maxLenPath, k))
            ==> p in e.files && e.files[p] == d.files[p])
  }

  /** ROLLING with record p holding index p, every generation the run names
      (each record's position, and the one past the last record unless
      max_count caps the limit below the record count) fitting the buffer, and
      none of them equal to the base path:
      when every call succeeds, the disk is Rolled. */
  lemma RollEffect(d: Disk, l: Layout, maxLenPath: nat, base: string, files: seq<nat>, maxCount: int, slot: int)
    requires WellFormed(l) && FreshAbove(d)
    requires forall p :: 0 <= p < |files| ==> files[p] == p
    requires forall k :: 0 <= k && (k < |files| || k <= RollLimit(|files|, maxCount)) ==> ArchiveName(l, maxLenPath, k).Some?
    requires forall k :: 0 <= k && (k < |files| || k <= RollLimit(|files|, maxCount)) ==> NameOf(l, maxLenPath, k) != base
    requires Run(d, RollPlan(l, maxLenPath, base, files, maxCount, slot)).ok
    ensures Rolled(d, Run(d, RollPlan(l, maxLenPath, base, files, maxCount, slot)).disk, l, maxLenPath, base, files, maxCount, slot)
  {
    var limit := RollLimit(|files|, maxCount);
    RollSplit(d, l, maxLenPath, base, files, maxCount, slot);
    RollStages(d, l, maxLenPath, base, files, maxCount, limit, slot);
  }

  /** RollEffect, stage by stage: shifts, move, reopen, unlinks. */
  lemma RollStages(d: Disk, l: Layout, maxLenPath: nat, base: string, files: seq<nat>, maxCount: int, limit: nat, slot: int)
    requires WellFormed(l) && FreshAbove(d) && limit == RollLimit(|files|, maxCount)
    requires forall p :: 0 <= p < |files| ==> files[p] == p
    requires forall k :: 0 <= k && (k < |files| || k <= RollLimit(|files|, maxCount)) ==> ArchiveName(l, maxLenPath, k).Some?
    requires forall k :: 0 <= k && (k < |files| || k <= RollLimit(|files|, maxCount)) ==> NameOf(l, maxLenPath, k) != base
    requires Run(d, Shifts(l, maxLenPath, files, limit, 0)).ok
    requires Perform(Run(d, Shifts(l, maxLenPath, files, limit, 0)).disk, Rename(base, NameOf(l, maxLenPath, 0))).Some?
    requires Perform(Perform(Run(d, Shifts(l, maxLenPath, files, limit, 0)).disk, Rename(base, NameOf(l, maxLenPath, 0))).value,
                     Reopen(base, slot)).Some?
    requires Run(Perform(Perform(Run(d, Shifts(l, maxLenPath, files, limit, 0)).disk, Rename(base, NameOf(l, maxLenPath, 0))).value,
                         Reopen(base, slot)).value,
                 if maxCount > 0 then DropsDown(l, maxLenPath, files, limit + 1) else []).ok
    ensures Rolled(d, Run(Perform(Perform(Run(d, Shifts(l, maxLenPath, files, limit, 0)).disk, Rename(base, NameOf(l, maxLenPath, 0))).value,
                                  Reopen(base, slot)).value,
                          if maxCount > 0 then DropsDown(l, maxLenPath, files, limit + 1) else []).disk,
                   l, maxLenPath, base, files, maxCount, slot)
  {
    var n0 := NameOf(l, maxLenPath, 0);
    var shifted := Run(d, Shifts(l, maxLenPath, files, limit, 0)).disk;
    var d1 := Perform(shifted, Rename(base, n0)).value;
    var d2 := Perform(d1, Reopen(base, slot)).value;
    var drops := if maxCount > 0 then DropsDown(l, maxLenPath, files, limit + 1) else [];
    RollMoveEffect(d, l, maxLenPath, base, files, limit);
    assert d2.files == d1.files[base := d.nextId] && d2.slots == d1.slots[slot := d.nextId];
    RollDropsKeep(d2, l, maxLenPath, base, files, maxCount, limit);
    RolledFromStages(d, d1, d2, Run(d2, drops).disk, l, maxLenPath, base, files, maxCount, limit, slot);
  }

  /** Glue for RollStages: the facts about the disk after the reopen and after
      the unlinks give Rolled. */
  lemma RolledFromStages(d: Disk, d1: Disk, d2: Disk, e: Disk, l: Layout, maxLenPath: nat, base: string, files: seq<nat>,
                         maxCount: int, limit: nat, slot: int)
    requires WellFormed(l) && FreshAbove(d) && limit == RollLimit(|files|, maxCount)
    requires forall k :: 0 <= k && (k < |files| || k <= RollLimit(|files|, maxCount)) ==> ArchiveName(l, maxLenPath, k).Some?
    requires forall k :: 0 <= k && (k < |files| || k <= RollLimit(|files|, maxCount)) ==> NameOf(l, maxLenPath, k) != base
    requires && base in d.files && base !in d1.files && d1.slots == d.slots && d1.nextId == d.nextId
      && NameOf(l, maxLenPath, 0) in d1.files && d1.files[NameOf(l, maxLenPath, 0)] == d.files[base]
      && (forall k :: 0 <= k < limit ==> NameOf(l, maxLenPath, k) in d.files)
      && (forall k :: 1 <= k <= limit ==>
            NameOf(l, maxLenPath, k) in d1.files && d1.files[NameOf(l, maxLenPath, k)] == d.files[NameOf(l, maxLenPath, k - 1)])
      && (forall p :: p in d.files && p != base && (forall k :: 0 <= k <= limit ==> p != NameOf(l, maxLenPath, k))
            ==> p in d1.files && d1.files[p] == d.files[p])
    requires d2.files == d1.files[base := d.nextId] && d2.slots == d1.slots[slot := d.nextId]
    requires && e.slots == d2.slots
      && (maxCount > 0 ==> forall k :: limit < k < |files| ==> NameOf(l, maxLenPath, k) !in e.files)
      && (base in d2.files ==> base in e.files && e.files[base] == d2.files[base])
      && (forall k :: 0 <= k <= limit && NameOf(l, maxLenPath, k) in d2.files ==>
            NameOf(l, maxLenPath, k) in e.files && e.files[NameOf(l, maxLenPath, k)] == d2.files[NameOf(l, maxLenPath, k)])
      && (forall p :: p in d2.files && (forall k :: limit < k < |files| ==> p != NameOf(l, maxLenPath, k))
            ==> p in e.files && e.files[p] == d2.files[p])
    ensures Rolled(d, e, l, maxLenPath, base, files, maxCount, slot)
  {
    NextIdIsNew(d);
    forall k | 0 <= k <= limit
      ensures NameOf(l, maxLenPath, k) in d2.files
    {
      assert NameOf(l, maxLenPath, k) in d1.files;
    }
    forall p | p in d.files && p != base && (forall k :: 0 <= k && (k < |files| || k <= RollLimit(|files|, maxCount)) ==> p != NameOf(l, maxLenPath, k))
      ensures p in e.files && e.files[p] == d.files[p]
    {
      assert p in d1.files && d1.files[p] == d.files[p];
      assert p in d2.files && d2.files[p] == d.files[p];
    }
  }

  /** The ROLLING unlinks spare the base path and generations 0 .. limit, and
      remove every archive after position limit. */
  lemma RollDropsKeep(d2: Disk, l: Layout, maxLenPath: nat, base: string, files: seq<nat>, maxCount: int, limit: nat)
    requires WellFormed(l) && limit == RollLimit(|files|, maxCount)
    requires forall p :: 0 <= p < |files| ==> files[p] == p
    requires forall k :: 0 <= k && (k < |files| || k <= RollLimit(|files|, maxCount)) ==> ArchiveName(l, maxLenPath, k).Some?
    requires forall k :: 0 <= k && (k < |files| || k <= RollLimit(|files|, maxCount)) ==> NameOf(l, maxLenPath, k) != base
    requires Run(d2, if maxCount > 0 then DropsDown(l, maxLenPath, files, limit + 1) else []).ok
    ensures var e := Run(d2, if maxCount > 0 then DropsDown(l, maxLenPath, files, limit + 1) else []).disk;
      && e.slots == d2.slots
      && (maxCount > 0 ==> forall k :: limit < k < |files| ==> NameOf(l, maxLenPath, k) !in e.files)
      && (base in d2.files ==> base in e.files && e.files[base] == d2.files[base])
      && (forall k :: 0 <= k <= limit && NameOf(l, maxLenPath, k) in d2.files ==>
            NameOf(l, maxLenPath, k) in e.files && e.files[NameOf(l, maxLenPath, k)] == d2.files[NameOf(l, maxLenPath, k)])
      && (forall p :: p in d2.files && (forall k :: limit < k < |files| ==> p != NameOf(l, maxLenPath, k))
            ==> p in e.files && e.files[p] == d2.files[p])
  {
    if maxCount > 0 && limit + 1 <= |files| {
      DropsDownEffect(d2, l, maxLenPath, files, limit + 1);
      var e := Run(d2, DropsDown(l, maxLenPath, files, limit + 1)).disk;
      forall k | limit < k < |files|
        ensures NameOf(l, maxLenPath, k) !in e.files
      {
        assert files[k] == k;
      }
      forall p | p in d2.files && (forall k :: limit < k < |files| ==> p != NameOf(l, maxLenPath, k))
        ensures p in e.files && e.files[p] == d2.files[p]
      {
        forall q | limit + 1 <= q < |files|
          ensures ArchiveName(l, maxLenPath, files[q]) != Some(p)
        {
          assert files[q] == q && p != NameOf(l, maxLenPath, q);
        }
      }
      forall k, q | 0 <= k <= limit && limit < q < |files|
        ensures NameOf(l, maxLenPath, k) != NameOf(l, maxLenPath, q)
      {
        if NameOf(l, maxLenPath, k) == NameOf(l, maxLenPath, q) {
          NameInjective(l, maxLenPath, k, q);
        }
      }
    } else if maxCount > 0 {
      assert DropsDown(l, maxLenPath, files, limit + 1) == [];
    }
  }

  /** Renames that neither take nor replace `keep` leave it, and every
      descriptor, as they were, and hand out no identity from before. */
  lemma {:induction false} RenamesSpare(d: Disk, calls: seq<Call>, keep: string)
    requires forall c :: c in calls ==> c.Overflow? || (c.Rename? && c.from != keep && c.to != keep)
    requires Run(d, calls).ok
    ensures var e := Run(d, calls).disk;
      && (keep in e.files <==> keep in d.files)
      && (keep in d.files ==> e.files[keep] == d.files[keep])
      && e.slots == d.slots && d.nextId <= e.nextId
    decreases |calls|
  {
    if calls != [] {
      var next := Perform(d, calls[0]).value;
      assert calls[0] in calls;
      PerformRename(d, calls[0].from, calls[0].to);
      assert forall c :: c in calls[1..] ==> c in calls;
      RenamesSpare(next, calls[1..], keep);
    }
  }

  /** The ROLLING shifts spare a base path that is no archive name. */
  lemma ShiftsSpareBase(d: Disk, l: Layout, maxLenPath: nat, files: seq<nat>, limit: nat, base: string)
    requires WellFormed(l) && limit <= |files|
    requires forall k :: ArchiveName(l, maxLenPath, k) != Some(base)
    requires Run(d, Shifts(l, maxLenPath, files, limit, 0)).ok
    ensures var e := Run(d, Shifts(l, maxLenPath, files, limit, 0)).disk;
      && (base in e.files <==> base in d.files)
      && (base in d.files ==> e.files[base] == d.files[base])
      && e.slots == d.slots && d.nextId <= e.nextId
  {
    var shifts := Shifts(l, maxLenPath, files, limit, 0);
    ShiftsAt(l, maxLenPath, files, limit, 0);
    forall c | c in shifts
      ensures c.Overflow? || (c.Rename? && c.from != base && c.to != base)
    {
      var t :| 0 <= t < |shifts| && shifts[t] == c;
    }
    RenamesSpare(d, shifts, base);
  }

  /** The ROLLING unlinks are unlinks of paths other than a base path that is
      no archive name. */
  lemma DropsSpareBase(l: Layout, maxLenPath: nat, files: seq<nat>, i: nat, base: string)
    requires WellFormed(l)
    requires forall k :: ArchiveName(l, maxLenPath, k) != Some(base)
    ensures forall c :: c in DropsDown(l, maxLenPath, files, i) ==> (c.Unlink? && c.path != base) || c.Overflow?
  {
    var drops := DropsDown(l, maxLenPath, files, i);
    if i <= |files| {
      DropsDownAt(l, maxLenPath, files, i);
      forall c | c in drops
        ensures (c.Unlink? && c.path != base) || c.Overflow?
      {
        var t :| 0 <= t < |drops| && drops[t] == c;
      }
    }
  }

  /** ROLLING, for any records, when no archive name is the base path and
      every call succeeds: the base path held a file before, and afterwards it
      names a new file that the caller's descriptor refers to. */
  lemma RollSwapsDescriptor(d: Disk, l: Layout, maxLenPath: nat, base: string, files: seq<nat>, maxCount: int, slot: int)
    requires WellFormed(l) && FreshAbove(d)
    requires forall k :: ArchiveName(l, maxLenPath, k) != Some(base)
    requires Run(d, RollPlan(l, maxLenPath, base, files, maxCount, slot)).ok
    ensures var e := Run(d, RollPlan(l, maxLenPath, base, files, maxCount, slot)).disk;
      && base in d.files
      && base in e.files && e.files[base] !in d.files.Values
      && slot in e.slots && e.slots[slot] == e.files[base]
  {
    var shifted, d1, drops := RollPieces(d, l, maxLenPath, base, files, maxCount, slot);
    var limit := RollLimit(|files|, maxCount);
    NameAvoidsBase(l, maxLenPath, base, 0);
    ShiftedKeepsBase(d, l, maxLenPath, files, limit, base, shifted);
    MoveAwayFromBase(shifted, base, ArchiveName(l, maxLenPath, 0).value, d1);
    if maxCount > 0 {
      DropsSpareBase(l, maxLenPath, files, limit + 1, base);
    }
    SwapFromStages(d, shifted, d1, base, slot, drops);
  }

  /** The hypothesis that no archive name is the base path, at one position. */
  lemma NameAvoidsBase(l: Layout, maxLenPath: nat, base: string, k: nat)
    requires WellFormed(l)
    requires forall k :: ArchiveName(l, maxLenPath, k) != Some(base)
    ensures ArchiveName(l, maxLenPath, k).Some? ==> ArchiveName(l, maxLenPath, k).value != base
  {
  }

  /** ShiftsSpareBase, stated for the disk the shifts end on. */
  lemma ShiftedKeepsBase(d: Disk, l: Layout, maxLenPath: nat, files: seq<nat>, limit: nat, base: string, shifted: Disk)
    requires WellFormed(l) && limit <= |files|
    requires forall k :: ArchiveName(l, maxLenPath, k) != Some(base)
    requires Run(d, Shifts(l, maxLenPath, files, limit, 0)) == Outcome(true, shifted)
    ensures (base in shifted.files <==> base in d.files) && d.nextId <= shifted.nextId
  {
    ShiftsSpareBase(d, l, maxLenPath, files, limit, base);
  }

  /** A rename of the base path to another name takes the base path away. */
  lemma MoveAwayFromBase(shifted: Disk, base: string, target: string, d1: Disk)
    requires base != target
    requires Perform(shifted, Rename(base, target)) == Some(d1)
    ensures base in shifted.files && base !in d1.files && shifted.nextId <= d1.nextId
  {
    PerformRename(shifted, base, target);
  }

  /** The ROLLING run, cut after the move of the base file: the disk after
      the shifts, the disk after the move, and the unlinks that follow the
      reopen. */
  lemma RollPieces(d: Disk, l: Layout, maxLenPath: nat, base: string, files: seq<nat>, maxCount: int, slot: int)
    returns (shifted: Disk, d1: Disk, drops: seq<Call>)
    requires WellFormed(l)
    requires Run(d, RollPlan(l, maxLenPath, base, files, maxCount, slot)).ok
    ensures ArchiveName(l, maxLenPath, 0).Some?
    ensures Run(d, Shifts(l, maxLenPath, files, RollLimit(|files|, maxCount), 0)) == Outcome(true, shifted)
    ensures Perform(shifted, Rename(base, ArchiveName(l, maxLenPath, 0).value)) == Some(d1)
    ensures drops == if maxCount > 0 then DropsDown(l, maxLenPath, files, RollLimit(|files|, maxCount) + 1) else []
    ensures Run(d, RollPlan(l, maxLenPath, base, files, maxCount, slot)) == Run(d1, [Reopen(base, slot)] + drops)
  {
    var limit := RollLimit(|files|, maxCount);
    RollSplit(d, l, maxLenPath, base, files, maxCount, slot);
    shifted := Run(d, Shifts(l, maxLenPath, files, limit, 0)).disk;
    d1 := Perform(shifted, Rename(base, ArchiveName(l, maxLenPath, 0).value)).value;
    drops := if maxCount > 0 then DropsDown(l, maxLenPath, files, limit + 1) else [];
    RunCons(d1, Reopen(base, slot), drops);
  }

  /** Glue for RollSwapsDescriptor: the base file leaves by a rename, the
      reopen creates a new one, and the unlinks spare it. */
  lemma SwapFromStages(d: Disk, shifted: Disk, d1: Disk, base: string, slot: int, drops: seq<Call>)
    requires FreshAbove(d)
    requires base in shifted.files && (base in shifted.files <==> base in d.files) && d.nextId <= shifted.nextId
    requires base !in d1.files && shifted.nextId <= d1.nextId
    requires forall c :: c in drops ==> (c.Unlink? && c.path != base) || c.Overflow?
    requires Run(d1, [Reopen(base, slot)] + drops).ok
    ensures var e := Run(d1, [Reopen(base, slot)] + drops).disk;
      && base in d.files
      && base in e.files && e.files[base] !in d.files.Values
      && slot in e.slots && e.slots[slot] == e.files[base]
  {
    ReopenThenUnlinks(d1, base, slot, drops);
    NextIdIsNew(d);
  }
}
