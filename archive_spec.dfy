/** The archive-path specification: an optional text `prefix#<width><r|s>suffix`
    that names the archives of a base log file. Parsing it yields a glob
    pattern, the offsets of the numeric field inside that pattern, the field
    width and the rotation mode. */
module ArchiveSpec {
  import opened Common
  import opened Decimal

  /** ROLLING renumbers every archive upward; SEQUENCE appends the next unused
      index. NoMode is the zero value a freshly cleaned rotater holds. */
  datatype MvType = NoMode | Rolling | Sequence

  /** glob: the pattern; [start, end) is the numeric field's placeholder in it. */
  datatype Layout = Layout(glob: string, start: nat, end: nat, width: nat, mode: MvType)

  datatype ParseError = NoMarker | NoModeLetter | PrefixTooLong | GlobTooLong

  datatype Parsed = Ok(layout: Layout) | Err(error: ParseError)

  /** Which length check guards a formatted write into the glob buffer: the
      source's `nwrite > size`, or `nwrite >= size`, which rules out truncation. */
  datatype BoundCheck = AsWritten | Intended

  predicate WellFormed(l: Layout) { l.start <= l.end <= |l.glob| }

  /** The literal text before the numeric field. */
  function Prefix(l: Layout): string
    requires WellFormed(l)
  {
    l.glob[..l.start]
  }

  /** The literal text after the numeric field. */
  function Suffix(l: Layout): string
    requires WellFormed(l)
  {
    l.glob[l.end..]
  }

  /** Position of the first '#' (strchr). */
  function FindMarker(s: string): (p: nat)
    requires '#' in s
    ensures p < |s| && s[p] == '#' && '#' !in s[..p]
  {
    if s[0] == '#' then 0
    else
      var q := FindMarker(s[1..]);
      assert s[..q + 1] == [s[0]] + s[1..][..q];
      q + 1
  }

  predicate IsModeLetter(c: char) { c == 'r' || c == 's' }

  /** What follows the '#': the optional width and the mode letter. */
  datatype Marker = Marker(width: nat, nread: nat, mode: MvType)

  /** sscanf(p, "#%d%n") and the test of the letter after it. When no digit
      follows '#', the width is left as it was and one character is consumed. */
  function ReadMarker(spec: string, p: nat, priorWidth: nat): (r: Option<Marker>)
    requires p < |spec|
    ensures r.Some? ==> p + r.value.nread < |spec| && r.value.mode != NoMode
    ensures r.Some? ==> (r.value.mode == Rolling <==> spec[p + r.value.nread] == 'r')
    ensures r.Some? ==> (r.value.mode == Sequence <==> spec[p + r.value.nread] == 's')
  {
    var scan := ScanInt(spec[p + 1..]);
    var width := if scan.Number? then scan.value else priorWidth;
    var nread := if scan.Number? then 1 + scan.count else 1;
    if p + nread < |spec| && spec[p + nread] == 'r' then Some(Marker(width, nread, Rolling))
    else if p + nread < |spec| && spec[p + nread] == 's' then Some(Marker(width, nread, Sequence))
    else None
  }

  /** snprintf of `text` into `room` bytes followed by the source's length check:
      refused when the check fails, otherwise what the buffer then holds (at most
      room - 1 characters before the terminator). */
  function Emit(text: string, room: nat, check: BoundCheck): Option<string>
    requires room >= 1
  {
    if |text| > room || (check == Intended && |text| == room) then None
    else Some(if |text| < room then text else text[..room - 1])
  }

  /** The "<base>.*" pattern used when no usable prefix is configured. */
  function DefaultGlob(base: string, cap: nat, check: BoundCheck, width: nat, mode: MvType): Parsed
    requires cap >= 1
  {
    match Emit(base + ".*", cap, check)
    case None => Err(GlobTooLong)
    case Some(g) => Ok(Layout(g, |base| + 1, |base| + 2, width, mode))
  }

  /** The parser, with the glob buffer of maxLenPath + 1 bytes. */
  function ParseWith(base: string, archive: Option<string>, maxLenPath: nat, priorWidth: nat,
                     check: BoundCheck): Parsed
  {
    var cap := maxLenPath + 1;
    if archive.None? || archive.value == [] then
      DefaultGlob(base, cap, check, 0, Rolling)
    else
      var spec := archive.value;
      if '#' !in spec then Err(NoMarker)
      else
        var p := FindMarker(spec);
        match ReadMarker(spec, p, priorWidth)
        case None => Err(NoModeLetter)
        case Some(m) => PlaceField(base, spec, p, m, cap, check)
  }

  /** Builds the pattern once the marker at p has been read. */
  function PlaceField(base: string, spec: string, p: nat, m: Marker, cap: nat, check: BoundCheck): (r: Parsed)
    requires cap >= 1 && p + m.nread < |spec|
    ensures r.Ok? ==> r.layout.width == m.width && r.layout.mode == m.mode
  {
    if p > cap - 1 then Err(PrefixTooLong)
    else if p > 0 then
      match Emit("*" + spec[p + m.nread + 1..], cap - p, check)
      case None => Err(GlobTooLong)
      case Some(tail) => Ok(Layout(spec[..p] + tail, p, p + 1, m.width, m.mode))
    else
      DefaultGlob(base, cap, check, m.width, m.mode)
  }

  /** The parser exactly as the source checks its writes. */
  function ParseAsWritten(base: string, archive: Option<string>, maxLenPath: nat, priorWidth: nat): Parsed
  {
    ParseWith(base, archive, maxLenPath, priorWidth, AsWritten)
  }

  /** The parser with every write checked against truncation. Whatever it accepts
      has the numeric placeholder '*' at `start`, a one-character field, and a
      pattern that fits the buffer. */
  function Parse(base: string, archive: Option<string>, maxLenPath: nat, priorWidth: nat): (r: Parsed)
    ensures r.Ok? ==> WellFormed(r.layout) && r.layout.end == r.layout.start + 1
    ensures r.Ok? ==> |r.layout.glob| <= maxLenPath && r.layout.glob[r.layout.start] == '*'
    ensures r.Ok? ==> r.layout.glob == Prefix(r.layout) + "*" + Suffix(r.layout)
    ensures r.Ok? ==> r.layout.mode != NoMode
  {
    ParseWith(base, archive, maxLenPath, priorWidth, Intended)
  }

  /** No specification, or an empty one: "<base>.*", ROLLING, width 0, the
      numeric field right after the dot that follows the base path, an empty
      suffix; refused only when the pattern does not fit the buffer. */
  lemma ParseDefault(base: string, archive: Option<string>, maxLenPath: nat, priorWidth: nat)
    requires archive.None? || archive.value == []
    ensures var r := Parse(base, archive, maxLenPath, priorWidth);
      && (r.Ok? <==> |base| + 2 <= maxLenPath)
      && (r.Ok? ==> r.layout == Layout(base + ".*", |base| + 1, |base| + 2, 0, Rolling)
                    && Prefix(r.layout) == base + "." && Suffix(r.layout) == "")
  {
  }

  /** A non-empty specification without '#' is refused. */
  lemma ParseNeedsMarker(base: string, spec: string, maxLenPath: nat, priorWidth: nat)
    requires spec != [] && '#' !in spec
    ensures Parse(base, Some(spec), maxLenPath, priorWidth) == Err(NoMarker)
  {
  }

  /** After the first '#', optional digits give the width (when there are none
      the width is left as it was) and the next character must be 'r' (ROLLING)
      or 's' (SEQUENCE); anything else is refused. */
  lemma ParseMarker(base: string, spec: string, maxLenPath: nat, priorWidth: nat)
    requires '#' in spec
    ensures var p := FindMarker(spec);
      var digits := LeadingDigits(spec[p + 1..]);
      var q := p + 1 + digits;
      var r := Parse(base, Some(spec), maxLenPath, priorWidth);
      && (q >= |spec| || !IsModeLetter(spec[q]) ==> r == Err(NoModeLetter))
      && (r.Ok? ==> q < |spec| && (r.layout.mode == Rolling <==> spec[q] == 'r')
                    && (r.layout.mode == Sequence <==> spec[q] == 's'))
      && (r.Ok? ==> r.layout.width == match ScanInt(spec[p + 1..])
                                        case NoNumber => priorWidth
                                        case Number(v, _) => v)
  {
    MarkerRefused(base, spec, maxLenPath, priorWidth);
    MarkerMode(base, spec, maxLenPath, priorWidth);
    MarkerWidth(base, spec, maxLenPath, priorWidth);
  }

  lemma MarkerRefused(base: string, spec: string, maxLenPath: nat, priorWidth: nat)
    requires '#' in spec
    ensures var p := FindMarker(spec);
      var q := p + 1 + LeadingDigits(spec[p + 1..]);
      q >= |spec| || !IsModeLetter(spec[q]) ==> Parse(base, Some(spec), maxLenPath, priorWidth) == Err(NoModeLetter)
  {
    ReadMarkerFields(spec, FindMarker(spec), priorWidth);
    MarkerDecides(base, spec, maxLenPath, priorWidth);
  }

  lemma MarkerMode(base: string, spec: string, maxLenPath: nat, priorWidth: nat)
    requires '#' in spec
    ensures var p := FindMarker(spec);
      var q := p + 1 + LeadingDigits(spec[p + 1..]);
      var r := Parse(base, Some(spec), maxLenPath, priorWidth);
      r.Ok? ==> q < |spec| && r.layout.mode == (if spec[q] == 'r' then Rolling else Sequence)
  {
    ReadMarkerFields(spec, FindMarker(spec), priorWidth);
    MarkerDecides(base, spec, maxLenPath, priorWidth);
  }

  lemma MarkerWidth(base: string, spec: string, maxLenPath: nat, priorWidth: nat)
    requires '#' in spec
    ensures var p := FindMarker(spec);
      var r := Parse(base, Some(spec), maxLenPath, priorWidth);
      r.Ok? ==> r.layout.width == match ScanInt(spec[p + 1..])
                                  case NoNumber => priorWidth
                                  case Number(v, _) => v
  {
    var p := FindMarker(spec);
    var m := ReadMarker(spec, p, priorWidth);
    assert m.Some? ==> m.value.width == match ScanInt(spec[p + 1..])
                                        case NoNumber => priorWidth
                                        case Number(v, _) => v by {
      ReadMarkerFields(spec, p, priorWidth);
    }
    var r := Parse(base, Some(spec), maxLenPath, priorWidth);
    assert r.Ok? ==> m.Some? && r.layout.width == m.value.width by {
      MarkerDecides(base, spec, maxLenPath, priorWidth);
    }
  }

  /** The parse of a marked specification fails exactly when its marker does,
      and otherwise takes width and mode from the marker. */
  lemma MarkerDecides(base: string, spec: string, maxLenPath: nat, priorWidth: nat)
    requires '#' in spec
    ensures var m := ReadMarker(spec, FindMarker(spec), priorWidth);
      var r := Parse(base, Some(spec), maxLenPath, priorWidth);
      && (m.None? ==> r == Err(NoModeLetter))
      && (m.Some? ==> r == PlaceField(base, spec, FindMarker(spec), m.value, maxLenPath + 1, Intended))
      && (r.Ok? ==> m.Some? && r.layout.mode == m.value.mode && r.layout.width == m.value.width)
  {
  }

  lemma ReadMarkerFields(spec: string, p: nat, priorWidth: nat)
    requires p < |spec|
    ensures var digits := LeadingDigits(spec[p + 1..]);
      var q := p + 1 + digits;
      var m := ReadMarker(spec, p, priorWidth);
      && (m.Some? <==> q < |spec| && IsModeLetter(spec[q]))
      && (m.Some? ==> m.value.nread == 1 + digits
                      && m.value.mode == (if spec[q] == 'r' then Rolling else Sequence)
                      && m.value.width == match ScanInt(spec[p + 1..])
                                          case NoNumber => priorWidth
                                          case Number(v, _) => v)
  {
  }

  /** A '#' after a non-empty prefix: the pattern is prefix + "*" + the text
      after the mode letter, with the field at |prefix|; accepted exactly when
      the letter is valid and the pattern fits the buffer. */
  lemma ParsePrefixed(base: string, spec: string, maxLenPath: nat, priorWidth: nat)
    requires '#' in spec && FindMarker(spec) > 0
    ensures var p := FindMarker(spec);
      var q := p + 1 + LeadingDigits(spec[p + 1..]);
      var r := Parse(base, Some(spec), maxLenPath, priorWidth);
      && (r.Ok? <==> q < |spec| && IsModeLetter(spec[q]) && p + 1 + |spec[q + 1..]| <= maxLenPath)
      && (r.Ok? ==> r.layout.glob == spec[..p] + "*" + spec[q + 1..]
                    && r.layout.start == p && r.layout.end == p + 1
                    && Prefix(r.layout) == spec[..p] && Suffix(r.layout) == spec[q + 1..])
  {
    PrefixedAccepts(base, spec, maxLenPath, priorWidth);
    PrefixedPattern(base, spec, maxLenPath, priorWidth);
    PrefixedAffixes(base, spec, maxLenPath, priorWidth);
  }

  lemma PrefixedAccepts(base: string, spec: string, maxLenPath: nat, priorWidth: nat)
    requires '#' in spec && FindMarker(spec) > 0
    ensures var p := FindMarker(spec);
      var q := p + 1 + LeadingDigits(spec[p + 1..]);
      Parse(base, Some(spec), maxLenPath, priorWidth).Ok? <==> q < |spec| && IsModeLetter(spec[q]) && p + 1 + |spec[q + 1..]| <= maxLenPath
  {
    var p := FindMarker(spec);
    ReadMarkerFields(spec, p, priorWidth);
    MarkerDecides(base, spec, maxLenPath, priorWidth);
    AcceptedWhenPlaced(Parse(base, Some(spec), maxLenPath, priorWidth), base, spec, p,
                       p + 1 + LeadingDigits(spec[p + 1..]), ReadMarker(spec, p, priorWidth), maxLenPath + 1);
  }

  /** The acceptance test of a prefixed pattern, once the parse is known to
      be the placement of the marker read at `p`, or a refusal without one. */
  lemma AcceptedWhenPlaced(r: Parsed, base: string, spec: string, p: nat, q: nat, m: Option<Marker>, cap: nat)
    requires cap >= 1 && 0 < p < q
    requires m.Some? <==> q < |spec| && IsModeLetter(spec[q])
    requires m.None? ==> r == Err(NoModeLetter)
    requires m.Some? ==> m.value.nread == q - p && r == PlaceField(base, spec, p, m.value, cap, Intended)
    ensures r.Ok? <==> q < |spec| && IsModeLetter(spec[q]) && p + 1 + |spec[q + 1..]| < cap
  {
    if m.Some? {
      PlaceFieldPrefixed(base, spec, p, q, m.value, cap);
    }
  }

  lemma PrefixedPattern(base: string, spec: string, maxLenPath: nat, priorWidth: nat)
    requires '#' in spec && FindMarker(spec) > 0
    ensures var p := FindMarker(spec);
      var q := p + 1 + LeadingDigits(spec[p + 1..]);
      var r := Parse(base, Some(spec), maxLenPath, priorWidth);
      r.Ok? ==> r.layout.glob == spec[..p] + "*" + spec[q + 1..] && r.layout.start == p && r.layout.end == p + 1
  {
    var p := FindMarker(spec);
    var m := ReadMarker(spec, p, priorWidth);
    ReadMarkerFields(spec, p, priorWidth);
    MarkerDecides(base, spec, maxLenPath, priorWidth);
    if m.Some? {
      PlaceFieldPrefixed(base, spec, p, p + m.value.nread, m.value, maxLenPath + 1);
    }
  }

  lemma PrefixedAffixes(base: string, spec: string, maxLenPath: nat, priorWidth: nat)
    requires '#' in spec && FindMarker(spec) > 0
    ensures var p := FindMarker(spec);
      var q := p + 1 + LeadingDigits(spec[p + 1..]);
      var r := Parse(base, Some(spec), maxLenPath, priorWidth);
      r.Ok? ==> Prefix(r.layout) == spec[..p] && Suffix(r.layout) == spec[q + 1..]
  {
    var p := FindMarker(spec);
    var m := ReadMarker(spec, p, priorWidth);
    ReadMarkerFields(spec, p, priorWidth);
    MarkerDecides(base, spec, maxLenPath, priorWidth);
    if m.Some? {
      PlaceFieldPrefixed(base, spec, p, p + m.value.nread, m.value, maxLenPath + 1);
    }
  }

  lemma PlaceFieldPrefixed(base: string, spec: string, p: nat, q: nat, m: Marker, cap: nat)
    requires cap >= 1 && q == p + m.nread && q < |spec| && p > 0
    ensures var r := PlaceField(base, spec, p, m, cap, Intended);
      && (r.Ok? <==> p + 1 + |spec[q + 1..]| < cap)
      && (r.Ok? ==> r.layout.glob == spec[..p] + "*" + spec[q + 1..]
                    && r.layout.start == p && r.layout.end == p + 1
                    && Prefix(r.layout) == spec[..p] && Suffix(r.layout) == spec[q + 1..])
  {
    var rest := spec[q + 1..];
    var g := spec[..p] + "*" + rest;
    assert g[..p] == spec[..p] && g[p + 1..] == rest;
  }

  /** A '#' at the very start falls back to the "<base>.*" pattern and its
      offsets, drops the suffix, and keeps the parsed width and mode. */
  lemma ParseMarkerFirst(base: string, spec: string, maxLenPath: nat, priorWidth: nat)
    requires spec != [] && spec[0] == '#'
    ensures var q := 1 + LeadingDigits(spec[1..]);
      var r := Parse(base, Some(spec), maxLenPath, priorWidth);
      && (r.Ok? <==> q < |spec| && IsModeLetter(spec[q]) && |base| + 2 <= maxLenPath)
      && (r.Ok? ==> r.layout.glob == base + ".*" && r.layout.start == |base| + 1
                    && r.layout.end == |base| + 2 && Suffix(r.layout) == "")
  {
    assert FindMarker(spec) == 0;
  }

  /** Worked specification "#5r" on base "x.log": width 5, ROLLING, empty suffix. */
  lemma ParseExampleMarkerOnly()
    ensures Parse("x.log", Some("#5r"), 1024, 0) == Ok(Layout("x.log.*", 6, 7, 5, Rolling))
  {
    var a := "#5r";
    assert a[1..] == "5r" && "5r"[1..] == "r";
    assert "5r"[..1] == "5" && "5"[..0] == "";
    assert ScanInt(a[1..]) == Number(5, 1);
    ParseMarkerFirst("x.log", a, 1024, 0);
    ParseMarker("x.log", a, 1024, 0);
  }

  /** Worked specification "pre#3s.log": prefix "pre", suffix ".log", width 3, SEQUENCE. */
  lemma ParseExamplePrefixed()
    ensures Parse("x.log", Some("pre#3s.log"), 1024, 0) == Ok(Layout("pre*.log", 3, 4, 3, Sequence))
  {
    ExamplePattern();
    ExampleModeWidth();
  }

  lemma ExamplePattern()
    ensures var r := Parse("x.log", Some("pre#3s.log"), 1024, 0);
      r.Ok? && r.layout.glob == "pre*.log" && r.layout.start == 3 && r.layout.end == 4
  {
    var b := "pre#3s.log";
    MarkerOfExample();
    assert b[4..] == "3s.log" && b[..3] == "pre" && b[6..] == ".log";
    ScanOfExample();
    assert LeadingDigits(b[4..]) == 1;
    assert "pre" + "*" + ".log" == "pre*.log";
    PrefixedAccepts("x.log", b, 1024, 0);
    PrefixedPattern("x.log", b, 1024, 0);
  }

  lemma ExampleModeWidth()
    ensures var r := Parse("x.log", Some("pre#3s.log"), 1024, 0);
      r.Ok? ==> r.layout.mode == Sequence && r.layout.width == 3
  {
    var b := "pre#3s.log";
    MarkerOfExample();
    assert b[4..] == "3s.log";
    ScanOfExample();
    ParseMarker("x.log", b, 1024, 0);
  }

  lemma MarkerOfExample()
    ensures FindMarker("pre#3s.log") == 3
  {
    var b := "pre#3s.log";
    var p := FindMarker(b);
    assert b[0] == 'p' && b[1] == 'r' && b[2] == 'e' && b[3] == '#';
  }

  lemma ScanOfExample()
    ensures ScanInt("3s.log") == Number(3, 1)
  {
    assert "3s.log"[1..] == "s.log";
    assert "3s.log"[..1] == "3" && "3"[..0] == "";
  }

  /** The source's `nwrite > size` lets a pattern of exactly the buffer size
      through: snprintf keeps all but its last character, so the default
      pattern "<base>.*" loses its '*' and the numeric field ends past the
      pattern's end (with a 4-byte buffer, base "ab" leaves "ab."). The
      intended check refuses the same input. */
  lemma AsWrittenAcceptsTruncatedGlob(base: string, maxLenPath: nat)
    requires |base| + 2 == maxLenPath + 1
    ensures ParseAsWritten(base, None, maxLenPath, 0) == Ok(Layout(base + ".", |base| + 1, |base| + 2, 0, Rolling))
    ensures !WellFormed(ParseAsWritten(base, None, maxLenPath, 0).layout)
    ensures Parse(base, None, maxLenPath, 0) == Err(GlobTooLong)
  {
    assert (base + ".*")[..maxLenPath] == base + ".";
  }

  /** The same slip after a prefix: when prefix + "*" + the text after the
      mode letter is exactly the buffer size, the source keeps the pattern with
      its last character cut off, so archives are named with a shortened
      suffix. */
  lemma AsWrittenTruncatesSuffix(base: string, spec: string, maxLenPath: nat, priorWidth: nat)
    requires '#' in spec && 0 < FindMarker(spec)
    requires ReadMarker(spec, FindMarker(spec), priorWidth).Some?
    requires var p := FindMarker(spec);
      p + 1 + |spec[p + ReadMarker(spec, p, priorWidth).value.nread + 1..]| == maxLenPath + 1
    ensures var p := FindMarker(spec);
      var rest := spec[p + ReadMarker(spec, p, priorWidth).value.nread + 1..];
      var r := ParseAsWritten(base, Some(spec), maxLenPath, priorWidth);
      && r.Ok? && r.layout.start == p && r.layout.end == p + 1
      && r.layout.glob == spec[..p] + ("*" + rest)[..|rest|]
  {
    var p := FindMarker(spec);
    var m := ReadMarker(spec, p, priorWidth).value;
    var cap := maxLenPath + 1;
    var rest := spec[p + m.nread + 1..];
    assert ParseWith(base, Some(spec), maxLenPath, priorWidth, AsWritten) == PlaceField(base, spec, p, m, cap, AsWritten);
    assert Emit("*" + rest, cap - p, AsWritten) == Some(("*" + rest)[..|rest|]);
  }

  /** The intended check refuses the prefixed pattern that exactly fills the
      buffer. */
  lemma IntendedRefusesFullPrefixed(base: string, spec: string, maxLenPath: nat, priorWidth: nat)
    requires '#' in spec && 0 < FindMarker(spec)
    requires ReadMarker(spec, FindMarker(spec), priorWidth).Some?
    requires var p := FindMarker(spec);
      p + 1 + |spec[p + ReadMarker(spec, p, priorWidth).value.nread + 1..]| == maxLenPath + 1
    ensures Parse(base, Some(spec), maxLenPath, priorWidth) == Err(GlobTooLong)
  {
    var p := FindMarker(spec);
    var m := ReadMarker(spec, p, priorWidth).value;
    var cap := maxLenPath + 1;
    var rest := spec[p + m.nread + 1..];
    assert ParseWith(base, Some(spec), maxLenPath, priorWidth, Intended) == PlaceField(base, spec, p, m, cap, Intended);
    assert Emit("*" + rest, cap - p, Intended) == None;
  }

  /** "pre#s.log" with a 7-character path limit: as written the pattern is
      "pre*.lo", while the intended parser refuses the specification. */
  lemma AsWrittenTruncatesExample()
    ensures ParseAsWritten("x.log", Some("pre#s.log"), 7, 0) == Ok(Layout("pre*.lo", 3, 4, 0, Sequence))
    ensures Parse("x.log", Some("pre#s.log"), 7, 0) == Err(GlobTooLong)
  {
    var b := "pre#s.log";
    MarkerOfExampleNoWidth();
    assert b[4..] == "s.log" && b[..3] == "pre" && b[5..] == ".log";
    assert LeadingDigits(b[4..]) == 0;
    AsWrittenTruncatesSuffix("x.log", b, 7, 0);
    IntendedRefusesFullPrefixed("x.log", b, 7, 0);
    assert ("*" + ".log")[..4] == "*.lo";
    assert "pre" + "*.lo" == "pre*.lo";
  }

  lemma MarkerOfExampleNoWidth()
    ensures FindMarker("pre#s.log") == 3
  {
    var b := "pre#s.log";
    var p := FindMarker(b);
    assert b[0] == 'p' && b[1] == 'r' && b[2] == 'e' && b[3] == '#';
  }
}
