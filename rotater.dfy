/** The rotater object: the lock it rotates under and the single-use state of
    one rotation (the paths, the parsed layout and the list of archives),
    which every rotation fills in and clears again. The filesystem is the
    Disk value each rotation receives and returns; glob(3) is the `expand`
    parameter. */
module RotaterClass {
  import opened Common
  import opened ArchiveSpec
  import opened Enumerator
  import opened FileSystem
  import opened Strategies
  import opened Effects

  /** zlog_rotater_lsmv as one value: parse the archive specification, list
      the archives, and run the plan of the parsed mode. A parse failure or a
      glob failure stops before any filesystem call. */
  function Rotation(maxLenPath: nat, base: string, archive: Option<string>, maxCount: int,
                    expand: string -> GlobResult, d: Disk, slot: int): (r: Outcome)
    ensures r.disk.refused == d.refused
    ensures FreshAbove(d) ==> FreshAbove(r.disk)
    ensures Parse(base, archive, maxLenPath, 0).Err? ==> r == Outcome(false, d)
    ensures Parse(base, archive, maxLenPath, 0).Ok? && expand(Parse(base, archive, maxLenPath, 0).layout.glob).GlobFailed?
            ==> r == Outcome(false, d)
  {
    match Parse(base, archive, maxLenPath, 0)
    case Err(_) => Outcome(false, d)
    case Ok(l) =>
      match Enumerate(base, expand(l.glob), l.start, l.width)
      case None => Outcome(false, d)
      case Some(files) => StrategyRun(l, maxLenPath, base, files, maxCount, slot, d)
  }

  /** The plan of the layout's mode, run on d; a layout without a mode runs
      nothing. */
  function StrategyRun(l: Layout, maxLenPath: nat, base: string, files: seq<nat>, maxCount: int,
                       slot: int, d: Disk): (r: Outcome)
    requires WellFormed(l)
    ensures r.disk.refused == d.refused
    ensures FreshAbove(d) ==> FreshAbove(r.disk)
  {
    if l.mode == Rolling then Run(d, RollPlan(l, maxLenPath, base, files, maxCount, slot))
    else if l.mode == Sequence then Run(d, SeqPlan(l, maxLenPath, base, files, maxCount, slot))
    else Outcome(true, d)
  }

  /** Once the specification parses to l and the archives list as files, the
      rotation is the run of l's plan. */
  lemma RotationOfLayout(maxLenPath: nat, base: string, archive: Option<string>, maxCount: int,
                         expand: string -> GlobResult, d: Disk, slot: int, l: Layout, files: seq<nat>)
    requires Parse(base, archive, maxLenPath, 0) == Ok(l)
    requires Enumerate(base, expand(l.glob), l.start, l.width) == Some(files)
    ensures WellFormed(l)
    ensures Rotation(maxLenPath, base, archive, maxCount, expand, d, slot)
            == StrategyRun(l, maxLenPath, base, files, maxCount, slot, d)
  {
  }

  /** A rotation that succeeds, with no archive name equal to the base path,
      swaps the caller's descriptor: the base path held a file, and afterwards
      it names a new file that the descriptor refers to. */
  lemma RotationSwapsDescriptor(maxLenPath: nat, base: string, archive: Option<string>, maxCount: int,
                                expand: string -> GlobResult, d: Disk, slot: int)
    requires FreshAbove(d)
    requires Parse(base, archive, maxLenPath, 0).Ok?
    requires forall k :: ArchiveName(Parse(base, archive, maxLenPath, 0).layout, maxLenPath, k) != Some(base)
    requires Rotation(maxLenPath, base, archive, maxCount, expand, d, slot).ok
    ensures var e := Rotation(maxLenPath, base, archive, maxCount, expand, d, slot).disk;
      && base in d.files
      && base in e.files && e.files[base] !in d.files.Values
      && slot in e.slots && e.slots[slot] == e.files[base]
  {
    var l := Parse(base, archive, maxLenPath, 0).layout;
    var files := Enumerate(base, expand(l.glob), l.start, l.width).value;
    if l.mode == Rolling {
      RollSwapsDescriptor(d, l, maxLenPath, base, files, maxCount, slot);
    } else {
      SeqEffect(d, l, maxLenPath, base, files, maxCount, slot);
    }
  }

  /** Without an archive specification the archives are "<base>.<n>", which
      are never the base path itself. */
  lemma DefaultNamesAvoidBase(base: string, archive: Option<string>, maxLenPath: nat)
    requires archive.None? || archive.value == []
    requires Parse(base, archive, maxLenPath, 0).Ok?
    ensures forall k :: ArchiveName(Parse(base, archive, maxLenPath, 0).layout, maxLenPath, k) != Some(base)
  {
    ParseDefault(base, archive, maxLenPath, 0);
    var l := Parse(base, archive, maxLenPath, 0).layout;
    forall k | ArchiveName(l, maxLenPath, k).Some?
      ensures ArchiveName(l, maxLenPath, k).value != base
    {
      assert |ArchiveName(l, maxLenPath, k).value| >= l.start == |base| + 1;
    }
  }

  /** What fcntl(F_SETLK) on the lock file reported: the lock was taken, or
      the call failed, whether because another process holds it or for any
      other reason. */
  datatype LockResult = Locked | NotLocked

  class Rotater {
    /** MAXLEN_PATH: path buffers hold maxLenPath characters and a NUL. */
    const maxLenPath: nat
    var lockFile: Option<string>
    var lockFd: int
    /** Set while a rotation of this process holds the lock. */
    var isRotating: bool

    var basePath: Option<string>
    var archivePath: Option<string>
    var globPath: string
    var numStartLen: nat
    var numEndLen: nat
    var numWidth: nat
    var mvType: MvType
    var maxCount: int
    /** The indices of the archives found, in list order; NULL and the empty
        list behave alike in every strategy. */
    var files: seq<nat>

    /** The numeric field lies inside a pattern that fits its buffer. */
    ghost predicate Valid()
      reads this
    {
      numStartLen <= numEndLen <= |globPath| <= maxLenPath
    }

    /** The state between rotations: what zlog_rotater_clean leaves. */
    ghost predicate Cleaned()
      reads this
    {
      && basePath.None? && archivePath.None? && maxCount == 0 && mvType == NoMode
      && numWidth == 0 && numStartLen == 0 && numEndLen == 0 && files == []
    }

    function CurrentLayout(): (l: Layout)
      reads this
      requires Valid()
      ensures WellFormed(l)
    {
      Layout(globPath, numStartLen, numEndLen, numWidth, mvType)
    }

    /** A zero-filled rotater, holding the lock file and its descriptor when
        one is given. */
    constructor (maxLenPath: nat, lock: Option<(string, int)>)
      ensures Valid() && Cleaned() && !isRotating && globPath == []
      ensures this.maxLenPath == maxLenPath
      ensures lockFile == (if lock.Some? then Some(lock.value.0) else None)
      ensures lockFd == (if lock.Some? then lock.value.1 else 0)
    {
      this.maxLenPath := maxLenPath;
      lockFile := if lock.Some? then Some(lock.value.0) else None;
      lockFd := if lock.Some? then lock.value.1 else 0;
      isRotating := false;
      basePath, archivePath := None, None;
      globPath := [];
      numStartLen, numEndLen, numWidth := 0, 0, 0;
      mvType := NoMode;
      maxCount := 0;
      files := [];
    }

    /** zlog_rotater_new: `openFd` is what open(2) returned for the lock file;
        a negative descriptor means no rotater. */
    static method New(maxLenPath: nat, lockFile: Option<string>, openFd: int) returns (r: Option<Rotater>)
      ensures lockFile.Some? && openFd < 0 ==> r.None?
      ensures !(lockFile.Some? && openFd < 0) ==>
        && r.Some? && fresh(r.value) && r.value.Valid() && r.value.Cleaned() && !r.value.isRotating
        && r.value.maxLenPath == maxLenPath && r.value.lockFile == lockFile
        && r.value.lockFd == (if lockFile.Some? then openFd else 0)
    {
      if lockFile.None? {
        var a := new Rotater(maxLenPath, None);
        return Some(a);
      }
      if openFd < 0 {
        return None;
      }
      var a := new Rotater(maxLenPath, Some((lockFile.value, openFd)));
      return Some(a);
    }

    /** zlog_rotater_parse_archive_path: on success the layout fields hold the
        parsed layout; on failure they are left as they were. The width of a
        marker without digits is the width held before. */
    method ParseArchivePath() returns (rc: int)
      requires Valid() && basePath.Some?
      modifies this`globPath, this`numStartLen, this`numEndLen, this`numWidth, this`mvType
      ensures Valid()
      ensures var r := Parse(basePath.value, archivePath, maxLenPath, old(numWidth));
        && (rc == 0 <==> r.Ok?) && (rc == 0 || rc == -1)
        && (r.Ok? ==> CurrentLayout() == r.layout)
        && (r.Err? ==> CurrentLayout() == old(CurrentLayout()))
    {
      var r := Parse(basePath.value, archivePath, maxLenPath, numWidth);
      if r.Err? {
        return -1;
      }
      globPath := r.layout.glob;
      numStartLen, numEndLen := r.layout.start, r.layout.end;
      numWidth := r.layout.width;
      mvType := r.layout.mode;
      return 0;
    }

    /** zlog_rotater_add_archive_files: glob the pattern; no match keeps the
        list as it was, a glob failure is an error, and otherwise the list is
        rebuilt from the accepted matches, ordered by index. */
    method AddArchiveFiles(expand: string -> GlobResult) returns (rc: int)
      requires Valid() && basePath.Some?
      modifies this`files
      ensures var g := expand(globPath);
        && (rc == 0 <==> !g.GlobFailed?) && (rc == 0 || rc == -1)
        && (g.Matches? ==> files == Collect(basePath.value, g.paths, numStartLen, numWidth))
        && (!g.Matches? ==> files == old(files))
    {
      var g := expand(globPath);
      if g.NoMatch? {
        return 0;
      } else if g.GlobFailed? {
        return -1;
      }
      files := CollectArchives(basePath.value, g.paths, numStartLen, numWidth);
      return 0;
    }

    /** zlog_rotater_seq_files, call by call on the disk `d`: the result is the
        run of SeqPlan. */
    method SeqFiles(slot: int, d: Disk) returns (rc: int, e: Disk)
      requires Valid() && basePath.Some?
      ensures var out := Run(d, SeqPlan(CurrentLayout(), maxLenPath, basePath.value, files, maxCount, slot));
        (rc == 0 <==> out.ok) && (rc == 0 || rc == -1) && e == out.disk
    {
      var l := CurrentLayout();
      var base := basePath.value;
      e := d;

      var j := 0;
      if |files| > 0 {
        j := Max(|files| - 1, files[|files| - 1]) + 1;
      }
      assert j == SeqNext(files);
      ghost var drops := DropsUp(l, maxLenPath, files, SeqPruneCount(|files|, maxCount));
      assert SeqPlan(l, maxLenPath, base, files, maxCount, slot) == [MoveTo(l, maxLenPath, base, j)] + ([Reopen(base, slot)] + drops);

      // the move of the base file
      RunCons(e, MoveTo(l, maxLenPath, base, j), [Reopen(base, slot)] + drops);
      var newPath := ArchiveName(l, maxLenPath, j);
      if newPath.None? {
        return -1, e;
      }
      var moved := Perform(e, Rename(base, newPath.value));
      if moved.None? {
        return -1, e;
      }
      e := moved.value;
      // open, dup2 and close
      RunCons(e, Reopen(base, slot), drops);
      var reopened := Perform(e, Reopen(base, slot));
      if reopened.None? {
        return -1, e;
      }
      e := reopened.value;
      if maxCount <= 0 {
        assert drops == [];
        return 0, e;
      }

      var minIdx := 0;
      if |files| > maxCount {
        minIdx := |files| - maxCount;
      }
      var ok;
      ok, e := DropOldestArchives(minIdx, e);
      rc := if ok then 0 else -1;
    }

    /** The pruning loop of zlog_rotater_seq_files: for i from 0 up to hi-1,
        unlink the archive of record i. */
    method DropOldestArchives(hi: nat, d: Disk) returns (ok: bool, e: Disk)
      requires Valid() && hi <= |files|
      ensures var out := Run(d, DropsUp(CurrentLayout(), maxLenPath, files, hi));
        ok == out.ok && e == out.disk
    {
      var l := CurrentLayout();
      ghost var drops := DropsUp(l, maxLenPath, files, hi);
      DropsUpAt(l, maxLenPath, files, hi);
      assert drops[..0] == [];
      e := d;
      var i := 0;
      while i < hi
        invariant 0 <= i <= hi
        invariant Run(d, drops[..i]) == Outcome(true, e)
      {
        RunPrefixStep(d, drops, i);
        var oldPath := ArchiveName(l, maxLenPath, files[i]);
        if oldPath.None? {
          RunPrefixFails(d, drops, i + 1);
          return false, e;
        }
        var unlinked := Perform(e, Unlink(oldPath.value));
        if unlinked.None? {
          RunPrefixFails(d, drops, i + 1);
          return false, e;
        }
        e := unlinked.value;
        i := i + 1;
      }
      assert i == hi;
      assert drops[..hi] == drops;
      return true, e;
    }

    /** zlog_rotater_roll_files, call by call on the disk `d`: the result is
        the run of RollPlan. */
    method RollFiles(slot: int, d: Disk) returns (rc: int, e: Disk)
      requires Valid() && basePath.Some?
      ensures var out := Run(d, RollPlan(CurrentLayout(), maxLenPath, basePath.value, files, maxCount, slot));
        (rc == 0 <==> out.ok) && (rc == 0 || rc == -1) && e == out.disk
    {
      var l := CurrentLayout();
      var base := basePath.value;
      var maxIdx := |files|;
      if maxCount > 0 && maxIdx > maxCount - 1 {
        maxIdx := maxCount - 1;
      }
      assert maxIdx == RollLimit(|files|, maxCount);
      ghost var shifts := Shifts(l, maxLenPath, files, maxIdx, 0);
      ghost var drops := if maxCount > 0 then DropsDown(l, maxLenPath, files, maxIdx + 1) else [];
      ghost var rest := [MoveTo(l, maxLenPath, base, 0)] + ([Reopen(base, slot)] + drops);
      ghost var plan := RollPlan(l, maxLenPath, base, files, maxCount, slot);
      assert plan == shifts + rest;
      RunAppend(d, shifts, rest);

      var ok;
      ok, e := ShiftArchives(maxIdx, d);
      if !ok {
        return -1, e;
      }

      // the move of the base file to generation 0
      RunCons(e, MoveTo(l, maxLenPath, base, 0), [Reopen(base, slot)] + drops);
      var newPath := ArchiveName(l, maxLenPath, 0);
      if newPath.None? {
        return -1, e;
      }
      var moved := Perform(e, Rename(base, newPath.value));
      if moved.None? {
        return -1, e;
      }
      e := moved.value;
      // open, dup2 and close
      RunCons(e, Reopen(base, slot), drops);
      var reopened := Perform(e, Reopen(base, slot));
      if reopened.None? {
        return -1, e;
      }
      e := reopened.value;
      if maxCount <= 0 {
        return 0, e;
      }

      ok, e := DropArchivesAbove(maxIdx, e);
      rc := if ok then 0 else -1;
    }

    /** The first loop of zlog_rotater_roll_files: for i from limit-1 down to
        0, rename the archive of record i to generation i+1. */
    method ShiftArchives(limit: nat, d: Disk) returns (ok: bool, e: Disk)
      requires Valid() && limit <= |files|
      ensures var out := Run(d, Shifts(CurrentLayout(), maxLenPath, files, limit, 0));
        ok == out.ok && e == out.disk
    {
      var l := CurrentLayout();
      ghost var shifts := Shifts(l, maxLenPath, files, limit, 0);
      ShiftsAt(l, maxLenPath, files, limit, 0);
      assert shifts[..0] == [];
      e := d;
      var i := limit - 1;
      while i > -1
        invariant -1 <= i < limit
        invariant Run(d, shifts[..limit - 1 - i]) == Outcome(true, e)
        decreases i
      {
        RunPrefixStep(d, shifts, limit - 1 - i);
        var oldPath := ArchiveName(l, maxLenPath, files[i]);
        if oldPath.None? {
          RunPrefixFails(d, shifts, limit - i);
          return false, e;
        }
        var newPath := ArchiveName(l, maxLenPath, i + 1);
        if newPath.None? {
          RunPrefixFails(d, shifts, limit - i);
          return false, e;
        }
        var shifted := Perform(e, Rename(oldPath.value, newPath.value));
        if shifted.None? {
          RunPrefixFails(d, shifts, limit - i);
          return false, e;
        }
        e := shifted.value;
        i := i - 1;
      }
      assert i == -1;
      assert shifts[..limit] == shifts;
      return true, e;
    }

    /** The last loop of zlog_rotater_roll_files: for i from the last record
        down to limit+1, unlink the archive of record i. */
    method DropArchivesAbove(limit: nat, d: Disk) returns (ok: bool, e: Disk)
      requires Valid()
      ensures var out := Run(d, DropsDown(CurrentLayout(), maxLenPath, files, limit + 1));
        ok == out.ok && e == out.disk
    {
      var l := CurrentLayout();
      ghost var drops := DropsDown(l, maxLenPath, files, limit + 1);
      e := d;
      if |files| <= limit + 1 {
        assert drops == [];
        return true, e;
      }
      DropsDownAt(l, maxLenPath, files, limit + 1);
      assert drops[..0] == [];
      var i := |files| - 1;
      ghost var t := 0;
      while i > limit
        invariant limit <= i < |files| && t == |files| - 1 - i
        invariant Run(d, drops[..t]) == Outcome(true, e)
        decreases i
      {
        RunPrefixStep(d, drops, t);
        assert drops[t] == DropCall(l, maxLenPath, files[i]);
        var oldPath := ArchiveName(l, maxLenPath, files[i]);
        if oldPath.None? {
          RunPrefixFails(d, drops, t + 1);
          return false, e;
        }
        var unlinked := Perform(e, Unlink(oldPath.value));
        if unlinked.None? {
          RunPrefixFails(d, drops, t + 1);
          return false, e;
        }
        e := unlinked.value;
        i, t := i - 1, t + 1;
      }
      assert drops[..t] == drops;
      return true, e;
    }

    /** zlog_rotater_clean: drop the single-use state; the pattern buffer
        keeps its text. */
    method Clean()
      requires Valid()
      modifies this`basePath, this`archivePath, this`maxCount, this`mvType, this`numWidth,
               this`numStartLen, this`numEndLen, this`files
      ensures Valid() && Cleaned()
    {
      basePath, archivePath := None, None;
      maxCount := 0;
      mvType := NoMode;
      numWidth, numStartLen, numEndLen := 0, 0, 0;
      files := [];
    }

    /** zlog_rotater_lsmv: parse, list, run the strategy of the parsed mode,
        and clean up whatever happened. The outcome is Rotation. */
    method Lsmv(base: string, archive: Option<string>, archiveMaxCount: int, slot: int,
                expand: string -> GlobResult, d: Disk) returns (rc: int, e: Disk)
      requires Valid() && Cleaned()
      modifies this`basePath, this`archivePath, this`maxCount, this`globPath, this`numStartLen,
               this`numEndLen, this`numWidth, this`mvType, this`files
      ensures Valid() && Cleaned()
      ensures var out := Rotation(maxLenPath, base, archive, archiveMaxCount, expand, d, slot);
        (rc == 0 <==> out.ok) && (rc == 0 || rc == -1) && e == out.disk
    {
      basePath := Some(base);
      archivePath := archive;
      maxCount := archiveMaxCount;
      rc := ParseArchivePath();
      if rc != 0 {
        Clean();
        return -1, d;
      }
      var l := CurrentLayout();
      assert Parse(base, archive, maxLenPath, 0) == Ok(l);
      rc := AddArchiveFiles(expand);
      if rc != 0 {
        Clean();
        return -1, d;
      }
      assert Enumerate(base, expand(l.glob), l.start, l.width) == Some(files);
      RotationOfLayout(maxLenPath, base, archive, archiveMaxCount, expand, d, slot, l, files);

      rc, e := RunStrategy(slot, d);
      Clean();
    }

    /** The branch on the parsed mode in zlog_rotater_lsmv: ROLLING runs
        RollFiles, SEQUENCE runs SeqFiles, and anything else does nothing. */
    method RunStrategy(slot: int, d: Disk) returns (rc: int, e: Disk)
      requires Valid() && basePath.Some?
      ensures var out := StrategyRun(CurrentLayout(), maxLenPath, basePath.value, files, maxCount, slot, d);
        (rc == 0 <==> out.ok) && (rc == 0 || rc == -1) && e == out.disk
    {
      if mvType == Rolling {
        rc, e := RollFiles(slot, d);
      } else if mvType == Sequence {
        rc, e := SeqFiles(slot, d);
      } else {
        rc, e := 0, d;
      }
    }

    /** zlog_rotater_trylock: with no lock file, always granted. Otherwise the
        flag must be clear, and `lock` is what fcntl(F_SETLK) reports; when it
        reports NotLocked the flag is cleared again. */
    method TryLock(lock: LockResult) returns (rc: int)
      modifies this`isRotating
      ensures lockFile.None? ==> rc == 0 && isRotating == old(isRotating)
      ensures lockFile.Some? && old(isRotating) ==> rc == -1 && isRotating
      ensures lockFile.Some? && !old(isRotating) ==>
        (rc == 0 <==> lock == Locked) && (rc == 0 || rc == -1) && (isRotating <==> lock == Locked)
    {
      if lockFile.None? {
        return 0;
      }
      if isRotating {
        return -1;
      }
      isRotating := true;
      if lock == NotLocked {
        isRotating := false;
        return -1;
      }
      return 0;
    }

    /** zlog_rotater_unlock: with no lock file, nothing to do. Otherwise
        `released` is whether fcntl(F_UNLCK) succeeded; the flag is cleared,
        and finding it already clear is also an error. */
    method Unlock(released: bool) returns (rc: int)
      modifies this`isRotating
      ensures lockFile.None? ==> rc == 0 && isRotating == old(isRotating)
      ensures lockFile.Some? ==> !isRotating && (rc == 0 <==> released && old(isRotating)) && (rc == 0 || rc == -1)
    {
      if lockFile.None? {
        return 0;
      }
      rc := 0;
      if !released {
        rc := -1;
      }
      if !isRotating {
        rc := -1;
      }
      isRotating := false;
    }

    /** zlog_rotater_rotate: a missing base path is an error; a lock held
        elsewhere is not, and nothing moves; otherwise the outcome is
        Rotation, whatever the unlock reports. */
    method Rotate(base: Option<string>, archive: Option<string>, archiveMaxCount: int, slot: int,
                  expand: string -> GlobResult, d: Disk, lock: LockResult, released: bool)
      returns (rc: int, e: Disk)
      requires Valid() && Cleaned()
      modifies this`basePath, this`archivePath, this`maxCount, this`globPath, this`numStartLen,
               this`numEndLen, this`numWidth, this`mvType, this`files, this`isRotating
      ensures Valid() && Cleaned()
      ensures base.None? ==> rc == -1 && e == d && isRotating == old(isRotating)
      ensures base.Some? && lockFile.Some? && (old(isRotating) || lock == NotLocked) ==>
        rc == 0 && e == d && isRotating == old(isRotating)
      ensures base.Some? && (lockFile.None? || (!old(isRotating) && lock == Locked)) ==>
        var out := Rotation(maxLenPath, base.value, archive, archiveMaxCount, expand, d, slot);
        && (rc == 0 <==> out.ok) && (rc == 0 || rc == -1) && e == out.disk
        && isRotating == (lockFile.None? && old(isRotating))
    {
      if base.None? {
        return -1, d;
      }
      var locked := TryLock(lock);
      if locked != 0 {
        return 0, d;
      }
      rc, e := Lsmv(base.value, archive, archiveMaxCount, slot, expand, d);
      if rc != 0 {
        rc := -1;
      }
      var _ := Unlock(released);
    }
  }
}
