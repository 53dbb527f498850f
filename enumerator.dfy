/** Listing the existing archives: each glob match is either skipped or read
    as a record holding its generation index, and the records are kept in a
    list ordered by index. */
module Enumerator {
  import opened Common
  import opened Decimal

  /** What glob(3) reports for the archive pattern. */
  datatype GlobResult = Matches(paths: seq<string>) | NoMatch | GlobFailed

  /** The text sscanf reads the index from: the match from the field offset on
      (nothing when the match is shorter than the offset). */
  function FieldText(path: string, start: nat): string
  {
    if start <= |path| then path[start..] else []
  }

  /** zlog_file_check_new: the index a match stands for, or None when the match
      is skipped (the base file itself, a directory, or a digit run shorter than
      a non-zero width). A match with no digits keeps the zero index. */
  function CheckNew(base: string, path: string, start: nat, width: nat): Option<nat>
  {
    if path == base then None
    else if |path| > 0 && path[|path| - 1] == '/' then None
    else
      var scan := ScanInt(FieldText(path, start));
      var nread := if scan.Number? then scan.count else 0;
      if width != 0 && nread < width then None
      else Some(if scan.Number? then scan.value else 0)
  }

  /** Which matches become records, and with which index. */
  lemma CheckNewAccepts(base: string, path: string, start: nat, width: nat)
    ensures var r := CheckNew(base, path, start, width);
      var digits := LeadingDigits(FieldText(path, start));
      && (r.Some? <==> path != base && !(|path| > 0 && path[|path| - 1] == '/')
                       && (width == 0 || digits >= width))
      && (r.Some? ==> r.value == match ScanInt(FieldText(path, start))
                                 case NoNumber => 0
                                 case Number(v, _) => v)
  {
  }

  /** The base file and directory entries never become records. */
  lemma CheckNewSkipsBaseAndDirs(base: string, path: string, start: nat, width: nat)
    requires path == base || (|path| > 0 && path[|path| - 1] == '/')
    ensures CheckNew(base, path, start, width).None?
  {
  }

  /** A name written as prefix + "%0*d" of k + suffix is read back as index k,
      whenever the suffix does not begin with a digit or end with '/' and the
      name is not the base path itself. */
  lemma {:induction false} NameReaccepted(base: string, prefix: string, suffix: string, width: nat, k: nat)
    requires suffix == [] || (!IsDigit(suffix[0]) && suffix[|suffix| - 1] != '/')
    requires prefix + Render(width, k) + suffix != base
    ensures CheckNew(base, prefix + Render(width, k) + suffix, |prefix|, width) == Some(k)
  {
    var name := prefix + Render(width, k) + suffix;
    assert FieldText(name, |prefix|) == Render(width, k) + suffix;
    ScanRender(width, k, suffix);
    RenderValue(width, k);
    if suffix == [] {
      assert name[|name| - 1] == Render(width, k)[|Render(width, k)| - 1];
    } else {
      assert name[|name| - 1] == suffix[|suffix| - 1];
    }
  }

  /** With width 2 and prefix "base.", "base.1.log" is skipped and "base.01.log" is index 1. */
  lemma WidthFilterExample()
    ensures CheckNew("base.log", "base.1.log", 5, 2).None?
    ensures CheckNew("base.log", "base.01.log", 5, 2) == Some(1)
  {
    assert FieldText("base.1.log", 5) == "1.log" && "1.log"[1..] == ".log";
    assert LeadingDigits("1.log") == 1;
    var t := FieldText("base.01.log", 5);
    assert t == "01.log" && t[1..] == "1.log" && t[1..][1..] == ".log";
    assert LeadingDigits(t) == 2;
    assert t[..2] == "01" && "01"[..1] == "0" && "0"[..0] == "";
  }

  /** zlog_file_cmp: a record ranks after another when its index is larger. */
  function Cmp(a: nat, b: nat): bool { a > b }

  predicate Sorted(s: seq<nat>) { forall i, j :: 0 <= i < j < |s| ==> s[i] <= s[j] }

  /** zc_arraylist_sortadd with Cmp: x goes in front of the first record that
      ranks after it, so after every record with an equal index. */
  function SortAdd(s: seq<nat>, x: nat): (r: seq<nat>)
    ensures |r| == |s| + 1
    ensures multiset(r) == multiset(s) + multiset{x}
  {
    if s == [] || Cmp(s[0], x) then [x] + s
    else
      assert s == [s[0]] + s[1..];
      [s[0]] + SortAdd(s[1..], x)
  }

  /** Inserting into an ordered list keeps it ordered. */
  lemma {:induction false} SortAddSorted(s: seq<nat>, x: nat)
    requires Sorted(s)
    ensures Sorted(SortAdd(s, x))
  {
    if s != [] && !Cmp(s[0], x) {
      SortAddSorted(s[1..], x);
      var rest := SortAdd(s[1..], x);
      forall e | e in rest
        ensures s[0] <= e
      {
        assert e in multiset(rest);
        assert e in multiset(s[1..]) || e == x;
      }
      SortedCons(s[0], rest);
    }
  }

  /** A value no larger than anything in an ordered list may go in front of it. */
  lemma SortedCons(h: nat, rest: seq<nat>)
    requires Sorted(rest)
    requires forall e :: e in rest ==> h <= e
    ensures Sorted([h] + rest)
  {
    var r := [h] + rest;
    forall i, j | 0 <= i < j < |r|
      ensures r[i] <= r[j]
    {
      if i > 0 {
        assert r[i] == rest[i - 1] && r[j] == rest[j - 1];
      } else {
        assert r[j] in rest;
      }
    }
  }

  /** The indices of the matches that become records, in glob order. */
  function Accepted(base: string, paths: seq<string>, start: nat, width: nat): seq<nat>
  {
    if paths == [] then []
    else
      var prev := Accepted(base, paths[..|paths| - 1], start, width);
      match CheckNew(base, paths[|paths| - 1], start, width)
      case None => prev
      case Some(k) => prev + [k]
  }

  /** The list built by inserting each accepted record in glob order: ordered by
      index, and holding exactly the accepted indices. */
  function Collect(base: string, paths: seq<string>, start: nat, width: nat): (files: seq<nat>)
    ensures Sorted(files)
    ensures multiset(files) == multiset(Accepted(base, paths, start, width))
  {
    if paths == [] then []
    else
      var prev := Collect(base, paths[..|paths| - 1], start, width);
      match CheckNew(base, paths[|paths| - 1], start, width)
      case None => prev
      case Some(k) => SortAddSorted(prev, k); SortAdd(prev, k)
  }

  /** The loop of zlog_rotater_add_archive_files over the glob matches. */
  method CollectArchives(base: string, paths: seq<string>, start: nat, width: nat)
    returns (files: seq<nat>)
    ensures files == Collect(base, paths, start, width)
    ensures Sorted(files)
    ensures multiset(files) == multiset(Accepted(base, paths, start, width))
  {
    files := [];
    var i := 0;
    while i < |paths|
      invariant 0 <= i <= |paths|
      invariant files == Collect(base, paths[..i], start, width)
    {
      assert paths[..i + 1][..i] == paths[..i];
      var rec := CheckNew(base, paths[i], start, width);
      if rec.Some? {
        files := SortAdd(files, rec.value);
      }
      i := i + 1;
    }
    assert paths[..i] == paths;
  }

  /** The outcome of the enumeration: no match is an empty list, any other glob
      failure is an error. */
  function Enumerate(base: string, glob: GlobResult, start: nat, width: nat): (r: Option<seq<nat>>)
    ensures r.None? <==> glob.GlobFailed?
    ensures glob.NoMatch? ==> r == Some([])
    ensures glob.Matches? ==> r.Some? && Sorted(r.value)
                              && multiset(r.value) == multiset(Accepted(base, glob.paths, start, width))
  {
    match glob
    case NoMatch => Some([])
    case GlobFailed => None
    case Matches(paths) => Some(Collect(base, paths, start, width))
  }
}
