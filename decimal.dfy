/** Decimal text as the rotater writes it with "%0*d" and reads it back with
    sscanf "%d%n": a non-negative index rendered zero-padded to a field width,
    and a leading run of digits scanned into a value and a character count. */
module Decimal {

  predicate IsDigit(c: char) { '0' <= c <= '9' }

  predicate AllDigits(s: string) { forall i :: 0 <= i < |s| ==> IsDigit(s[i]) }

  function DigitChar(d: nat): (c: char)
    requires d < 10
    ensures IsDigit(c) && c as int - '0' as int == d
  {
    ('0' as int + d) as char
  }

  function DigitValue(c: char): nat
    requires IsDigit(c)
  {
    c as int - '0' as int
  }

  /** The shortest decimal spelling of k ("%d" of a non-negative value). */
  function Digits(k: nat): (s: string)
    ensures 1 <= |s| && AllDigits(s)
    ensures k < 10 <==> |s| == 1
    decreases k
  {
    if k < 10 then [DigitChar(k)] else Digits(k / 10) + [DigitChar(k % 10)]
  }

  function Zeros(n: nat): (s: string)
    ensures |s| == n && forall i :: 0 <= i < n ==> s[i] == '0'
  {
    seq(n, _ => '0')
  }

  /** "%0*d" with field width `width` and a non-negative value k. */
  function Render(width: nat, k: nat): string
  {
    if width > |Digits(k)| then Zeros(width - |Digits(k)|) + Digits(k) else Digits(k)
  }

  /** The value of a run of decimal digits, most significant first. */
  function Value(s: string): nat
    requires AllDigits(s)
  {
    if s == [] then 0 else 10 * Value(s[..|s| - 1]) + DigitValue(s[|s| - 1])
  }

  /** Number of digits at the head of s. */
  function LeadingDigits(s: string): (n: nat)
    ensures n <= |s|
    ensures forall i :: 0 <= i < n ==> IsDigit(s[i])
    ensures n < |s| ==> !IsDigit(s[n])
  {
    if s != [] && IsDigit(s[0]) then 1 + LeadingDigits(s[1..]) else 0
  }

  /** What sscanf "%d%n" stores: nothing when no digit leads the text,
      otherwise the value and the count of characters consumed. */
  datatype Scan = NoNumber | Number(value: nat, count: nat)

  function ScanInt(s: string): (r: Scan)
    ensures r.NoNumber? <==> (s == [] || !IsDigit(s[0]))
    ensures r.NoNumber? <==> LeadingDigits(s) == 0
    ensures r.Number? ==> r.count == LeadingDigits(s)
    ensures r.Number? ==> 1 <= r.count <= |s| && AllDigits(s[..r.count])
                          && (r.count < |s| ==> !IsDigit(s[r.count]))
                          && r.value == Value(s[..r.count])
  {
    var n := LeadingDigits(s);
    if n == 0 then NoNumber else Number(Value(s[..n]), n)
  }

  lemma {:induction false} ValueOfDigits(k: nat)
    ensures Value(Digits(k)) == k
    decreases k
  {
    if k >= 10 {
      var s := Digits(k);
      assert s[..|s| - 1] == Digits(k / 10);
      ValueOfDigits(k / 10);
    }
  }

  lemma {:induction false} ValueOfZeros(n: nat)
    ensures Value(Zeros(n)) == 0
  {
    if n > 0 {
      assert Zeros(n)[..n - 1] == Zeros(n - 1);
      ValueOfZeros(n - 1);
    }
  }

  /** Leading zeros do not change a value. */
  lemma {:induction false} ValueIgnoresZeros(n: nat, s: string)
    requires AllDigits(s)
    ensures AllDigits(Zeros(n) + s) && Value(Zeros(n) + s) == Value(s)
    decreases |s|
  {
    var z := Zeros(n) + s;
    if s == [] {
      assert z == Zeros(n);
      ValueOfZeros(n);
    } else {
      assert z[..|z| - 1] == Zeros(n) + s[..|s| - 1];
      ValueIgnoresZeros(n, s[..|s| - 1]);
    }
  }

  /** The rendered field is all digits, at least `width` long, and reads back as k. */
  lemma RenderValue(width: nat, k: nat)
    ensures AllDigits(Render(width, k))
    ensures |Render(width, k)| >= width && |Render(width, k)| >= 1
    ensures Value(Render(width, k)) == k
  {
    ValueOfDigits(k);
    if width > |Digits(k)| {
      ValueIgnoresZeros(width - |Digits(k)|, Digits(k));
    }
  }

  /** Two indices rendered at the same width give the same text only if they are equal. */
  lemma RenderInjective(width: nat, a: nat, b: nat)
    requires Render(width, a) == Render(width, b)
    ensures a == b
  {
    RenderValue(width, a);
    RenderValue(width, b);
  }

  lemma {:induction false} LeadingDigitsOfConcat(d: string, t: string)
    requires AllDigits(d)
    requires t == [] || !IsDigit(t[0])
    ensures LeadingDigits(d + t) == |d|
    decreases |d|
  {
    if d != [] {
      assert (d + t)[1..] == d[1..] + t;
      LeadingDigitsOfConcat(d[1..], t);
    }
  }

  /** Round trip of "%0*d%s" through "%d%n": scanning the rendered field followed
      by a suffix that does not start with a digit gives back k, and counts every
      character of the field, so at least `width` of them. */
  lemma {:induction false} ScanRender(width: nat, k: nat, suffix: string)
    requires suffix == [] || !IsDigit(suffix[0])
    ensures ScanInt(Render(width, k) + suffix) == Number(k, |Render(width, k)|)
    ensures |Render(width, k)| >= width
  {
    var r := Render(width, k);
    RenderValue(width, k);
    LeadingDigitsOfConcat(r, suffix);
    assert (r + suffix)[..|r|] == r;
  }
}
