/** The filesystem calls each rotation strategy issues, as a plan: archive
    names rendered from the layout, the renames that make room, the move of
    the base file, the reopen onto the caller's descriptor, and the unlinks
    that prune old archives. The methods of the rotater run these plans. */
module Strategies {
  import opened Common
  import opened Decimal
  import opened ArchiveSpec
  import opened Enumerator
  import opened FileSystem

  /** The archive path of generation k: the layout's prefix, k written "%0*d"
      at the layout's width, and the suffix; None when that text and its NUL do
      not fit the MAXLEN_PATH + 1 byte buffer. */
  function ArchiveName(l: Layout, maxLenPath: nat, k: nat): (r: Option<string>)
    requires WellFormed(l)
    ensures r.Some? ==> l.start <= |r.value| <= maxLenPath && r.value[..l.start] == Prefix(l)
  {
    var field := Render(l.width, k) + Suffix(l);
    if l.start + |field| >= maxLenPath + 1 then None else Some(Prefix(l) + field)
  }

  /** rename(src, name(k)), or a stop when name(k) does not fit. */
  function MoveTo(l: Layout, maxLenPath: nat, src: string, k: nat): Call
    requires WellFormed(l)
  {
    match ArchiveName(l, maxLenPath, k)
    case None => Overflow
    case Some(name) => Rename(src, name)
  }

  /** rename(name(from), name(to)); the source name is rendered first. */
  function ShiftCall(l: Layout, maxLenPath: nat, from: nat, to: nat): Call
    requires WellFormed(l)
  {
    match ArchiveName(l, maxLenPath, from)
    case None => Overflow
    case Some(src) => MoveTo(l, maxLenPath, src, to)
  }

  /** unlink(name(k)), or a stop when name(k) does not fit. */
  function DropCall(l: Layout, maxLenPath: nat, k: nat): Call
    requires WellFormed(l)
  {
    match ArchiveName(l, maxLenPath, k)
    case None => Overflow
    case Some(name) => Unlink(name)
  }

  // ---------------------------------------------------------------- Sequence

  /** The generation the base file is archived as under SEQUENCE. */
  function SeqNext(files: seq<nat>): nat
  {
    if |files| == 0 then 0 else Max(|files| - 1, files[|files| - 1]) + 1
  }

  /** How many of the oldest records SEQUENCE removes (min_idx). */
  function SeqPruneCount(count: nat, maxCount: int): (n: nat)
    ensures n <= count
    ensures maxCount <= 0 ==> n == 0
    ensures maxCount > 0 ==> count - n == Min(count, maxCount)
  {
    if maxCount > 0 && count > maxCount then count - maxCount else 0
  }

  /** Unlinks of the records at positions 0 .. hi-1, in that order. */
  function DropsUp(l: Layout, maxLenPath: nat, files: seq<nat>, hi: nat): seq<Call>
    requires WellFormed(l)
    requires hi <= |files|
  {
    if hi == 0 then [] else DropsUp(l, maxLenPath, files, hi - 1) + [DropCall(l, maxLenPath, files[hi - 1])]
  }

  /** zlog_rotater_seq_files: move the base file to name(SeqNext), reopen it
      onto the caller's descriptor, then remove the oldest records beyond
      max_count. */
  function SeqPlan(l: Layout, maxLenPath: nat, base: string, files: seq<nat>, maxCount: int, slot: int): seq<Call>
    requires WellFormed(l)
  {
    [MoveTo(l, maxLenPath, base, SeqNext(files)), Reopen(base, slot)]
      + DropsUp(l, maxLenPath, files, SeqPruneCount(|files|, maxCount))
  }

  // ----------------------------------------------------------------- Rolling

  /** max_idx: how many records ROLLING shifts up by one generation. */
  function RollLimit(count: nat, maxCount: int): (limit: nat)
    ensures limit <= count
    ensures maxCount > 0 ==> limit < maxCount && (limit == count || limit == maxCount - 1)
    ensures maxCount > 0 && count >= maxCount ==> limit == maxCount - 1
    ensures maxCount > 0 && count < maxCount ==> limit == count
    ensures maxCount <= 0 ==> limit == count
  {
    if maxCount > 0 && count > maxCount - 1 then maxCount - 1 else count
  }

  /** Renames of the records at positions limit-1 down to i, each from its own
      index to its position plus one. */
  function Shifts(l: Layout, maxLenPath: nat, files: seq<nat>, limit: nat, i: nat): seq<Call>
    requires WellFormed(l)
    requires limit <= |files|
    decreases limit - i
  {
    if i >= limit then [] else Shifts(l, maxLenPath, files, limit, i + 1) + [ShiftCall(l, maxLenPath, files[i], i + 1)]
  }

  /** Unlinks of the records at positions |files|-1 down to i. */
  function DropsDown(l: Layout, maxLenPath: nat, files: seq<nat>, i: nat): seq<Call>
    requires WellFormed(l)
    decreases |files| - i
  {
    if i >= |files| then [] else DropsDown(l, maxLenPath, files, i + 1) + [DropCall(l, maxLenPath, files[i])]
  }

  /** zlog_rotater_roll_files: shift the first RollLimit records up, move the
      base file to name(0), reopen it onto the caller's descriptor, and, with a
      positive max_count, remove the records after position RollLimit. */
  function RollPlan(l: Layout, maxLenPath: nat, base: string, files: seq<nat>, maxCount: int, slot: int): seq<Call>
    requires WellFormed(l)
  {
    var limit := RollLimit(|files|, maxCount);
    Shifts(l, maxLenPath, files, limit, 0)
      + [MoveTo(l, maxLenPath, base, 0), Reopen(base, slot)]
      + (if maxCount > 0 then DropsDown(l, maxLenPath, files, limit + 1) else [])
  }

  // ------------------------------------------------------------ Properties

  /** Different generations never share an archive name. */
  lemma NameInjective(l: Layout, maxLenPath: nat, a: nat, b: nat)
    requires WellFormed(l)
    requires ArchiveName(l, maxLenPath, a).Some?
    requires ArchiveName(l, maxLenPath, a) == ArchiveName(l, maxLenPath, b)
    ensures a == b
  {
    var n := ArchiveName(l, maxLenPath, a).value;
    var ra, rb := Render(l.width, a), Render(l.width, b);
    assert n == Prefix(l) + ra + Suffix(l) == Prefix(l) + rb + Suffix(l);
    assert |ra| == |rb|;
    assert n[l.start..l.start + |ra|] == ra;
    assert n[l.start..l.start + |rb|] == rb;
    RenderInjective(l.width, a, b);
  }

  /** Round trip through the enumerator: an archive name written for
      generation k is accepted again as a record with index k, provided the
      suffix neither starts with a digit nor ends with '/' and the name is not
      the base path. */
  lemma NameReadBack(base: string, l: Layout, maxLenPath: nat, k: nat)
    requires WellFormed(l)
    requires ArchiveName(l, maxLenPath, k).Some?
    requires ArchiveName(l, maxLenPath, k).value != base
    requires Suffix(l) == [] || (!IsDigit(Suffix(l)[0]) && Suffix(l)[|Suffix(l)| - 1] != '/')
    ensures CheckNew(base, ArchiveName(l, maxLenPath, k).value, l.start, l.width) == Some(k)
    ensures |Render(l.width, k)| >= l.width
  {
    assert ArchiveName(l, maxLenPath, k).value == Prefix(l) + Render(l.width, k) + Suffix(l);
    NameReaccepted(base, Prefix(l), Suffix(l), l.width, k);
    RenderValue(l.width, k);
  }

  /** The SEQUENCE generation is above every listed index and at least the
      number of records. */
  lemma SeqNextAboveAll(files: seq<nat>)
    requires Sorted(files)
    ensures forall i :: 0 <= i < |files| ==> files[i] < SeqNext(files)
    ensures |files| <= SeqNext(files)
  {
  }

  lemma {:induction false} DropsUpAt(l: Layout, maxLenPath: nat, files: seq<nat>, hi: nat)
    requires WellFormed(l)
    requires hi <= |files|
    ensures |DropsUp(l, maxLenPath, files, hi)| == hi
    ensures forall i :: 0 <= i < hi ==> DropsUp(l, maxLenPath, files, hi)[i] == DropCall(l, maxLenPath, files[i])
  {
    if hi > 0 {
      DropsUpAt(l, maxLenPath, files, hi - 1);
    }
  }

  lemma {:induction false} ShiftsAt(l: Layout, maxLenPath: nat, files: seq<nat>, limit: nat, i: nat)
    requires WellFormed(l)
    requires i <= limit <= |files|
    ensures |Shifts(l, maxLenPath, files, limit, i)| == limit - i
    ensures forall t :: 0 <= t < limit - i ==>
      Shifts(l, maxLenPath, files, limit, i)[t] == ShiftCall(l, maxLenPath, files[limit - 1 - t], limit - t)
    decreases limit - i
  {
    if i < limit {
      ShiftsAt(l, maxLenPath, files, limit, i + 1);
    }
  }

  lemma {:induction false} DropsDownAt(l: Layout, maxLenPath: nat, files: seq<nat>, i: nat)
    requires WellFormed(l)
    requires i <= |files|
    ensures |DropsDown(l, maxLenPath, files, i)| == |files| - i
    ensures forall t :: 0 <= t < |files| - i ==>
      DropsDown(l, maxLenPath, files, i)[t] == DropCall(l, maxLenPath, files[|files| - 1 - t])
    decreases |files| - i
  {
    if i < |files| {
      DropsDownAt(l, maxLenPath, files, i + 1);
    }
  }

  /** SEQUENCE, call by call: the move of the base file to name(SeqNext), the
      reopen, then one unlink for each of the SeqPruneCount oldest records. */
  lemma SeqPlanAt(l: Layout, maxLenPath: nat, base: string, files: seq<nat>, maxCount: int, slot: int)
    requires WellFormed(l)
    ensures var plan := SeqPlan(l, maxLenPath, base, files, maxCount, slot);
      && |plan| == 2 + SeqPruneCount(|files|, maxCount)
      && plan[0] == MoveTo(l, maxLenPath, base, SeqNext(files))
      && plan[1] == Reopen(base, slot)
      && forall i :: 0 <= i < SeqPruneCount(|files|, maxCount) ==> plan[2 + i] == DropCall(l, maxLenPath, files[i])
  {
    DropsUpAt(l, maxLenPath, files, SeqPruneCount(|files|, maxCount));
  }

  /** SEQUENCE never unlinks the archive it has just written. */
  lemma SeqKeepsNewArchive(l: Layout, maxLenPath: nat, base: string, files: seq<nat>, maxCount: int, slot: int)
    requires WellFormed(l)
    requires Sorted(files)
    ensures forall c :: c in SeqPlan(l, maxLenPath, base, files, maxCount, slot) && c.Unlink? ==>
      ArchiveName(l, maxLenPath, SeqNext(files)) != Some(c.path)
  {
    var plan := SeqPlan(l, maxLenPath, base, files, maxCount, slot);
    SeqPlanAt(l, maxLenPath, base, files, maxCount, slot);
    SeqNextAboveAll(files);
    forall c | c in plan && c.Unlink?
      ensures ArchiveName(l, maxLenPath, SeqNext(files)) != Some(c.path)
    {
      var t :| 0 <= t < |plan| && plan[t] == c;
      assert t >= 2;
      var k := files[t - 2];
      assert ArchiveName(l, maxLenPath, k) == Some(c.path);
      if ArchiveName(l, maxLenPath, SeqNext(files)) == Some(c.path) {
        NameInjective(l, maxLenPath, k, SeqNext(files));
      }
    }
  }

  /** ROLLING, call by call: the shifts of positions limit-1 down to 0, the
      move of the base file to name(0), the reopen, then, with a positive
      max_count, the unlinks of positions |files|-1 down to limit+1. */
  lemma RollPlanAt(l: Layout, maxLenPath: nat, base: string, files: seq<nat>, maxCount: int, slot: int)
    requires WellFormed(l)
    ensures var plan := RollPlan(l, maxLenPath, base, files, maxCount, slot);
      var limit := RollLimit(|files|, maxCount);
      var drops := if maxCount > 0 && limit + 1 < |files| then |files| - limit - 1 else 0;
      && |plan| == limit + 2 + drops
      && (forall t :: 0 <= t < limit ==> plan[t] == ShiftCall(l, maxLenPath, files[limit - 1 - t], limit - t))
      && plan[limit] == MoveTo(l, maxLenPath, base, 0)
      && plan[limit + 1] == Reopen(base, slot)
      && (forall t :: limit + 2 <= t < |plan| ==> plan[t] == DropCall(l, maxLenPath, files[|files| + limit + 1 - t]))
  {
    var limit := RollLimit(|files|, maxCount);
    ShiftsAt(l, maxLenPath, files, limit, 0);
    if maxCount > 0 && limit + 1 <= |files| {
      DropsDownAt(l, maxLenPath, files, limit + 1);
    }
  }

  /** Without a positive max_count neither strategy unlinks anything. */
  lemma NoPruneWithoutMaxCount(l: Layout, maxLenPath: nat, base: string, files: seq<nat>, maxCount: int, slot: int)
    requires WellFormed(l)
    requires maxCount <= 0
    ensures forall c :: c in SeqPlan(l, maxLenPath, base, files, maxCount, slot) ==> !c.Unlink?
    ensures forall c :: c in RollPlan(l, maxLenPath, base, files, maxCount, slot) ==> !c.Unlink?
  {
    SeqPlanAt(l, maxLenPath, base, files, maxCount, slot);
    RollPlanAt(l, maxLenPath, base, files, maxCount, slot);
    var roll := RollPlan(l, maxLenPath, base, files, maxCount, slot);
    forall c | c in roll
      ensures !c.Unlink?
    {
      var t :| 0 <= t < |roll| && roll[t] == c;
    }
  }

  /** ROLLING with distinct indices: the record at position RollLimit is never
      the source of a rename nor the target of an unlink (unless its name is the
      base path itself). */
  lemma RollBoundaryUntouched(l: Layout, maxLenPath: nat, base: string, files: seq<nat>, maxCount: int, slot: int)
    requires WellFormed(l)
    requires forall i, j :: 0 <= i < j < |files| ==> files[i] < files[j]
    requires RollLimit(|files|, maxCount) < |files|
    requires ArchiveName(l, maxLenPath, files[RollLimit(|files|, maxCount)]) != Some(base)
    ensures var n := ArchiveName(l, maxLenPath, files[RollLimit(|files|, maxCount)]);
      forall c :: c in RollPlan(l, maxLenPath, base, files, maxCount, slot) ==>
        (c.Rename? ==> Some(c.from) != n) && (c.Unlink? ==> Some(c.path) != n)
  {
    var limit := RollLimit(|files|, maxCount);
    var k := files[limit];
    var shifts := Shifts(l, maxLenPath, files, limit, 0);
    var drops := if maxCount > 0 then DropsDown(l, maxLenPath, files, limit + 1) else [];
    var plan := RollPlan(l, maxLenPath, base, files, maxCount, slot);
    assert plan == shifts + [MoveTo(l, maxLenPath, base, 0), Reopen(base, slot)] + drops;
    ShiftsSpareRecord(l, maxLenPath, files, limit, limit);
    if maxCount > 0 {
      DropsSpareRecord(l, maxLenPath, files, limit + 1, limit);
    }
    forall c | c in plan
      ensures (c.Rename? ==> Some(c.from) != ArchiveName(l, maxLenPath, k))
      ensures (c.Unlink? ==> Some(c.path) != ArchiveName(l, maxLenPath, k))
    {
      if c !in shifts && c !in drops {
        assert c == MoveTo(l, maxLenPath, base, 0) || c == Reopen(base, slot);
      }
    }
  }

  /** The shifts of positions limit-1 down to 0 rename no archive of the record
      at position j >= limit. */
  lemma ShiftsSpareRecord(l: Layout, maxLenPath: nat, files: seq<nat>, limit: nat, j: nat)
    requires WellFormed(l)
    requires forall i, j :: 0 <= i < j < |files| ==> files[i] < files[j]
    requires limit <= j < |files|
    ensures forall c :: c in Shifts(l, maxLenPath, files, limit, 0) ==>
      !c.Unlink? && (c.Rename? ==> Some(c.from) != ArchiveName(l, maxLenPath, files[j]))
  {
    var shifts := Shifts(l, maxLenPath, files, limit, 0);
    ShiftsAt(l, maxLenPath, files, limit, 0);
    forall c | c in shifts
      ensures !c.Unlink? && (c.Rename? ==> Some(c.from) != ArchiveName(l, maxLenPath, files[j]))
    {
      var t :| 0 <= t < |shifts| && shifts[t] == c;
      var from := files[limit - 1 - t];
      assert from < files[j];
      assert c == ShiftCall(l, maxLenPath, from, limit - t);
      ShiftLeavesOthers(l, maxLenPath, from, limit - t, files[j]);
    }
  }

  /** The unlinks of positions |files|-1 down to i unlink no archive of the
      record at position j < i. */
  lemma DropsSpareRecord(l: Layout, maxLenPath: nat, files: seq<nat>, i: nat, j: nat)
    requires WellFormed(l)
    requires forall i, j :: 0 <= i < j < |files| ==> files[i] < files[j]
    requires j < i
    ensures forall c :: c in DropsDown(l, maxLenPath, files, i) ==>
      !c.Rename? && (c.Unlink? ==> Some(c.path) != ArchiveName(l, maxLenPath, files[j]))
  {
    var drops := DropsDown(l, maxLenPath, files, i);
    if i <= |files| {
      DropsDownAt(l, maxLenPath, files, i);
      forall c | c in drops
        ensures !c.Rename? && (c.Unlink? ==> Some(c.path) != ArchiveName(l, maxLenPath, files[j]))
      {
        var t :| 0 <= t < |drops| && drops[t] == c;
        DropLeavesOthers(l, maxLenPath, files[|files| - 1 - t], files[j]);
      }
    }
  }

  /** A shift of generation `from` renames no other generation's archive. */
  lemma ShiftLeavesOthers(l: Layout, maxLenPath: nat, from: nat, to: nat, k: nat)
    requires WellFormed(l)
    requires from != k
    ensures ShiftCall(l, maxLenPath, from, to).Rename? ==>
      Some(ShiftCall(l, maxLenPath, from, to).from) != ArchiveName(l, maxLenPath, k)
  {
    if ShiftCall(l, maxLenPath, from, to).Rename? {
      assert ArchiveName(l, maxLenPath, from) == Some(ShiftCall(l, maxLenPath, from, to).from);
      if ArchiveName(l, maxLenPath, from) == ArchiveName(l, maxLenPath, k) {
        NameInjective(l, maxLenPath, from, k);
      }
    }
  }

  /** Dropping generation q unlinks no other generation's archive. */
  lemma DropLeavesOthers(l: Layout, maxLenPath: nat, q: nat, k: nat)
    requires WellFormed(l)
    requires q != k
    ensures DropCall(l, maxLenPath, q).Unlink? ==> Some(DropCall(l, maxLenPath, q).path) != ArchiveName(l, maxLenPath, k)
  {
    if DropCall(l, maxLenPath, q).Unlink? && ArchiveName(l, maxLenPath, q) == ArchiveName(l, maxLenPath, k) {
      NameInjective(l, maxLenPath, q, k);
    }
  }

  /** ROLLING with contiguous indices 0 .. n-1: when position i is shifted to
      name(i+1), no record still waiting to be shifted (positions below i) has
      that name, so no rename overwrites an archive it has not moved yet. */
  lemma RollNoClobber(l: Layout, maxLenPath: nat, base: string, files: seq<nat>, maxCount: int, slot: int)
    requires WellFormed(l)
    requires forall p :: 0 <= p < |files| ==> files[p] == p
    ensures var plan := RollPlan(l, maxLenPath, base, files, maxCount, slot);
      var limit := RollLimit(|files|, maxCount);
      && limit + 2 <= |plan|
      && forall t, p :: 0 <= t < limit && 0 <= p < limit - 1 - t && plan[t].Rename? ==>
        Some(plan[t].to) != ArchiveName(l, maxLenPath, files[p])
  {
    var limit := RollLimit(|files|, maxCount);
    var plan := RollPlan(l, maxLenPath, base, files, maxCount, slot);
    RollPlanAt(l, maxLenPath, base, files, maxCount, slot);
    forall t, p | 0 <= t < limit && 0 <= p < limit - 1 - t && plan[t].Rename?
      ensures Some(plan[t].to) != ArchiveName(l, maxLenPath, files[p])
    {
      assert ArchiveName(l, maxLenPath, limit - t) == Some(plan[t].to);
      if Some(plan[t].to) == ArchiveName(l, maxLenPath, files[p]) {
        NameInjective(l, maxLenPath, limit - t, files[p]);
      }
    }
  }
}
