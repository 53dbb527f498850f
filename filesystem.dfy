/** The part of the operating system a rotation touches, as a value: which
    path names which file, which file each descriptor refers to, and which
    calls the system will refuse. A rotation is a sequence of calls run in
    order until the first one that fails. */
module FileSystem {
  import opened Common

  /** One filesystem step of a rotation.
      Rename: rename(2), which replaces an existing target.
      Unlink: unlink(2).
      Reopen: open(path, O_WRONLY | O_APPEND | O_CREAT), dup2 of the new
        descriptor onto `slot`, and close of the temporary descriptor.
      Overflow: a path that did not fit its buffer; the rotation stops there. */
  datatype Call =
    | Rename(from: string, to: string)
    | Unlink(path: string)
    | Reopen(path: string, slot: int)
    | Overflow

  /** files: what each existing path names; slots: what each open descriptor
      refers to; nextId: the identity the next created file receives; refused:
      the calls the system will fail (permissions, I/O errors, ...). */
  datatype Disk = Disk(files: map<string, nat>, slots: map<int, nat>, nextId: nat, refused: set<Call>)

  /** Every existing file was created before `nextId` was handed out. */
  predicate FreshAbove(d: Disk)
  {
    forall p :: p in d.files ==> d.files[p] < d.nextId
  }

  /** One call: None when it fails. A rename or unlink of a missing path fails;
      open with O_CREAT opens an existing file or creates a new one. */
  function Perform(d: Disk, c: Call): (r: Option<Disk>)
    ensures r.Some? ==> r.value.refused == d.refused && d.nextId <= r.value.nextId
    ensures r.Some? && FreshAbove(d) ==> FreshAbove(r.value)
    ensures r.Some? && !c.Reopen? ==> r.value.slots == d.slots
    ensures r.Some? <==> c !in d.refused && !c.Overflow? && (c.Rename? ==> c.from in d.files)
                         && (c.Unlink? ==> c.path in d.files)
    ensures r.Some? && c.Reopen? ==>
      && c.path in r.value.files && c.slot in r.value.slots
      && r.value.slots[c.slot] == r.value.files[c.path]
      && (c.path in d.files ==> r.value.files == d.files)
      && (c.path !in d.files ==> r.value.files[c.path] == d.nextId)
  {
    if c in d.refused then None
    else
      match c
      case Rename(from, to) =>
        if from in d.files then Some(d.(files := (d.files - {from})[to := d.files[from]])) else None
      case Unlink(path) =>
        if path in d.files then Some(d.(files := d.files - {path})) else None
      case Reopen(path, slot) =>
        if path in d.files then Some(d.(slots := d.slots[slot := d.files[path]]))
        else Some(d.(files := d.files[path := d.nextId], slots := d.slots[slot := d.nextId], nextId := d.nextId + 1))
      case Overflow => None
  }

  datatype Outcome = Outcome(ok: bool, disk: Disk)

  /** Runs the calls in order; the first failure stops the run and leaves the
      effects of the calls before it in place. */
  function Run(d: Disk, calls: seq<Call>): (r: Outcome)
    ensures r.disk.refused == d.refused
    ensures FreshAbove(d) ==> FreshAbove(r.disk)
    decreases |calls|
  {
    if calls == [] then Outcome(true, d)
    else
      match Perform(d, calls[0])
      case None => Outcome(false, d)
      case Some(next) => Run(next, calls[1..])
  }

  /** Running a + b is running a, then b from where a left off, unless a failed. */
  lemma {:induction false} RunAppend(d: Disk, a: seq<Call>, b: seq<Call>)
    ensures Run(d, a + b) == if Run(d, a).ok then Run(Run(d, a).disk, b) else Run(d, a)
    decreases |a|
  {
    if a != [] {
      assert (a + b)[1..] == a[1..] + b;
      match Perform(d, a[0])
      case None =>
      case Some(next) => RunAppend(next, a[1..], b);
    } else {
      assert a + b == b;
    }
  }

  /** The step form of RunAppend that loops use. */
  lemma RunSnoc(d: Disk, a: seq<Call>, c: Call)
    requires Run(d, a).ok
    ensures Run(d, a + [c]) == match Perform(Run(d, a).disk, c)
                               case None => Outcome(false, Run(d, a).disk)
                               case Some(next) => Outcome(true, next)
  {
    RunAppend(d, a, [c]);
  }

  /** A loop that has run the first t calls of a plan without failure runs
      the next one: the run of the first t+1 calls is that call's outcome. */
  lemma RunPrefixStep(d: Disk, calls: seq<Call>, t: nat)
    requires t < |calls| && Run(d, calls[..t]).ok
    ensures var mid := Run(d, calls[..t]).disk;
      Run(d, calls[..t + 1]) == match Perform(mid, calls[t])
                                case None => Outcome(false, mid)
                                case Some(next) => Outcome(true, next)
  {
    assert calls[..t + 1] == calls[..t] + [calls[t]];
    RunSnoc(d, calls[..t], calls[t]);
  }

  /** Once a prefix of a plan has failed, the whole plan has failed there. */
  lemma RunPrefixFails(d: Disk, calls: seq<Call>, t: nat)
    requires t <= |calls| && !Run(d, calls[..t]).ok
    ensures Run(d, calls) == Run(d, calls[..t])
  {
    assert calls == calls[..t] + calls[t..];
    RunAppend(d, calls[..t], calls[t..]);
  }

  /** A run is its first call, then the rest. */
  lemma RunCons(d: Disk, c: Call, rest: seq<Call>)
    ensures Run(d, [c] + rest) == match Perform(d, c)
                                  case None => Outcome(false, d)
                                  case Some(next) => Run(next, rest)
  {
    assert ([c] + rest)[1..] == rest;
  }

  /** Only unlinks: a run that succeeds leaves every descriptor alone, removes
      the unlinked paths and keeps every other path. */
  lemma {:induction false} RunUnlinks(d: Disk, calls: seq<Call>)
    requires forall c :: c in calls ==> c.Unlink? || c.Overflow?
    requires Run(d, calls).ok
    ensures var e := Run(d, calls).disk;
      && e.slots == d.slots
      && (forall c :: c in calls ==> c.Unlink? && c.path !in e.files)
      && (forall p :: p in d.files && Unlink(p) !in calls ==> p in e.files && e.files[p] == d.files[p])
    decreases |calls|
  {
    if calls != [] {
      var next := Perform(d, calls[0]).value;
      assert forall c :: c in calls[1..] ==> c in calls;
      RunUnlinks(next, calls[1..]);
      var e := Run(d, calls).disk;
      assert e == Run(next, calls[1..]).disk;
      forall c | c in calls
        ensures c.Unlink? && c.path !in e.files
      {
        if c != calls[0] {
          assert c in calls[1..];
        } else {
          RunKeepsMissing(next, calls[1..], c.path);
        }
      }
    }
  }

  /** A run of unlinks never brings a missing path back. */
  lemma {:induction false} RunKeepsMissing(d: Disk, calls: seq<Call>, p: string)
    requires forall c :: c in calls ==> c.Unlink? || c.Overflow?
    requires p !in d.files
    ensures p !in Run(d, calls).disk.files
    decreases |calls|
  {
    if calls != [] {
      match Perform(d, calls[0])
      case None =>
      case Some(next) =>
        assert forall c :: c in calls[1..] ==> c in calls;
        RunKeepsMissing(next, calls[1..], p);
    }
  }

  /** Descriptor swap: after a successful reopen of `base` onto `slot` followed
      by unlinks that spare `base`, the slot refers to the file at `base`, and
      that file is a new one when `base` did not exist before. */
  lemma ReopenThenUnlinks(d: Disk, base: string, slot: int, tail: seq<Call>)
    requires forall c :: c in tail ==> (c.Unlink? && c.path != base) || c.Overflow?
    requires Run(d, [Reopen(base, slot)] + tail).ok
    ensures var e := Run(d, [Reopen(base, slot)] + tail).disk;
      && base in e.files && slot in e.slots && e.slots[slot] == e.files[base]
      && (base !in d.files ==> e.files[base] == d.nextId)
  {
    RunCons(d, Reopen(base, slot), tail);
    var next := Perform(d, Reopen(base, slot)).value;
    UnlinksKeepPath(next, tail, base);
  }

  /** A successful run of unlinks that spare `keep` leaves `keep` and every
      descriptor as they were. */
  lemma UnlinksKeepPath(d: Disk, tail: seq<Call>, keep: string)
    requires forall c :: c in tail ==> (c.Unlink? && c.path != keep) || c.Overflow?
    requires Run(d, tail).ok
    requires keep in d.files
    ensures var e := Run(d, tail).disk;
      keep in e.files && e.files[keep] == d.files[keep] && e.slots == d.slots
  {
    assert Unlink(keep) !in tail;
    RunUnlinks(d, tail);
  }

  /** A rename that succeeds moves the file from `from` to `to`, replacing
      whatever `to` named, and changes nothing else. */
  lemma PerformRename(d: Disk, from: string, to: string)
    requires Perform(d, Rename(from, to)).Some?
    ensures from in d.files
    ensures var e := Perform(d, Rename(from, to)).value;
      && to in e.files && e.files[to] == d.files[from]
      && (from != to ==> from !in e.files)
      && e.slots == d.slots && e.nextId == d.nextId
      && (forall p :: p != from && p != to ==> (p in e.files <==> p in d.files) && (p in d.files ==> e.files[p] == d.files[p]))
  {
  }

  /** The next identity handed out names no existing file. */
  lemma NextIdIsNew(d: Disk)
    requires FreshAbove(d)
    ensures d.nextId !in d.files.Values
  {
  }
}
