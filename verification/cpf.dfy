/** The CPF (Brazilian taxpayer number) helpers: the display mask of the
    utilities, the inline mask of the vote report, the progressive input
    formatter of the signup and profile pages, and the patterns those pages
    check a CPF against. */
module Cpf {

  import opened Wrappers
  import opened Text

  function Min(a: int, b: int): int
  {
    if a <= b then a else b
  }

  // The display mask

  /** `mascararCpf`: the first nine digits grouped as `ddd.ddd.ddd-**`;
      an absent or empty value shows `-`, and a value without exactly 11
      digits is shown unchanged. */
  function Mask(cpf: Option<string>): (r: string)
    ensures cpf.None? || cpf.value == "" ==> r == "-"
    ensures cpf.Some? && cpf.value != "" && |Digits(cpf.value)| != 11 ==> r == cpf.value
    ensures cpf.Some? && |Digits(cpf.value)| == 11 ==> |r| == 14 && r[11..] == "-**"
  {
    if cpf.None? || cpf.value == "" then "-"
    else
      var d := Digits(cpf.value);
      if |d| != 11 then cpf.value
      else d[..3] + "." + d[3..6] + "." + d[6..9] + "-**"
  }

  /** The masked form of an 11-digit CPF carries exactly its first nine
      digits, in order. */
  lemma MaskKeepsNineDigits(cpf: string)
    requires |Digits(cpf)| == 11
    ensures Digits(Mask(Some(cpf))) == Digits(cpf)[..9]
  {
    var d := Digits(cpf);
    SliceDigits(d, 0, 3);
    SliceDigits(d, 3, 6);
    SliceDigits(d, 6, 9);
    DigitsAround(d[..3], ".", d[3..6]);
    DigitsAround(d[..3] + "." + d[3..6], ".", d[6..9]);
    var x := d[..3] + "." + d[3..6] + "." + d[6..9];
    DigitsAround(x, "-**", "");
    assert x + "-**" + "" == x + "-**" == Mask(Some(cpf));
    assert d[..3] + d[3..6] + d[6..9] == d[..9];
  }

  /** The last two digits never reach the output. */
  lemma MaskIgnoresCheckDigits(a: string, b: string)
    requires |Digits(a)| == 11 && |Digits(b)| == 11
    requires Digits(a)[..9] == Digits(b)[..9]
    ensures Mask(Some(a)) == Mask(Some(b))
  {
    var da, db := Digits(a), Digits(b);
    assert da[..3] == da[..9][..3] == db[..9][..3] == db[..3];
    assert da[3..6] == da[..9][3..6] == db[..9][3..6] == db[3..6];
    assert da[6..9] == da[..9][6..9] == db[..9][6..9] == db[6..9];
  }

  /** Masking a masked value changes nothing: the mask keeps nine digits,
      which fails the 11-digit test, and `-` has none. */
  lemma MaskIdempotent(cpf: Option<string>)
    ensures Mask(Some(Mask(cpf))) == Mask(cpf)
  {
    if cpf.Some? && cpf.value != "" && |Digits(cpf.value)| == 11 {
      MaskKeepsNineDigits(cpf.value);
    } else if cpf.None? || cpf.value == "" {
      assert Digits("-") == "";
    }
  }

  /** The example of the doc comment, for every CPF: the punctuated and
      the plain spelling mask alike. */
  lemma MaskIgnoresPunctuation(p1: string, p2: string, p3: string, p4: string)
    requires |p1| == 3 && |p2| == 3 && |p3| == 3 && |p4| == 2
    requires AllDigits(p1) && AllDigits(p2) && AllDigits(p3) && AllDigits(p4)
    ensures Mask(Some(p1 + "." + p2 + "." + p3 + "-" + p4)) == p1 + "." + p2 + "." + p3 + "-**"
    ensures Mask(Some(p1 + p2 + p3 + p4)) == p1 + "." + p2 + "." + p3 + "-**"
  {
    var d := p1 + p2 + p3 + p4;
    assert AllDigits(d);
    DigitsOfDigits(d);
    DigitsOfDigits(p1);
    DigitsOfDigits(p2);
    DigitsOfDigits(p3);
    DigitsOfDigits(p4);
    DigitsAround(p1, ".", p2);
    DigitsAround(p1 + "." + p2, ".", p3);
    DigitsAround(p1 + "." + p2 + "." + p3, "-", p4);
    assert d[..3] == p1 && d[3..6] == p2 && d[6..9] == p3;
  }

  // The report's inline mask

  /** `cpf.substring(0, 3) + '.' + cpf.substring(3, 6) + '.' +
      cpf.substring(6, 9) + '**'` on the raw column, `-` when the column is
      absent or empty: no digit stripping and no hyphen. */
  function ReportMask(cpf: Option<string>): (r: string)
    ensures cpf.None? || cpf.value == "" ==> r == "-"
    ensures cpf.Some? && cpf.value != "" ==>
      |r| == Min(|cpf.value|, 9) + 4 && r[|r| - 2..] == "**"
    ensures cpf.Some? && cpf.value != "" && '-' !in cpf.value ==> '-' !in r
  {
    if cpf.None? || cpf.value == "" then "-"
    else
      var c := cpf.value;
      var r := Slice(c, 0, 3) + "." + Slice(c, 3, 6) + "." + Slice(c, 6, 9) + "**";
      SliceWithin(c, 0, 3);
      SliceWithin(c, 3, 6);
      SliceWithin(c, 6, 9);
      r
  }

  /** On an 11-digit column the two masks differ exactly by the hyphen. */
  lemma ReportMaskLacksHyphen(cpf: string)
    requires |cpf| == 11 && AllDigits(cpf)
    ensures Mask(Some(cpf)) == ReportMask(Some(cpf))[..11] + "-**"
    ensures ReportMask(Some(cpf)) != Mask(Some(cpf))
  {
    DigitsOfDigits(cpf);
  }

  /** A column stored with punctuation is cut at raw positions. */
  lemma ReportMaskOfFormatted()
    ensures ReportMask(Some("123.456.789-01")) == "123..45.6.7**"
  {
    var c := "123.456.789-01";
    assert c[11] == '-';
    ReportMaskCuts(c);
    assert c[..3] == "123" && c[3..6] == ".45" && c[6..9] == "6.7";
  }

  /** On a column of nine characters or more, the report's mask is its
      first three groups of three, cut at raw positions. */
  lemma ReportMaskCuts(c: string)
    requires |c| >= 9
    ensures ReportMask(Some(c)) == c[..3] + "." + c[3..6] + "." + c[6..9] + "**"
  {
  }

  lemma SliceWithin(s: string, a: nat, b: nat)
    requires a <= b
    ensures forall x :: x in Slice(s, a, b) ==> x in s
  {
  }

  // The progressive input formatter

  /** `formatarCpf` (signup page) and `mascaraCPF` (profile page), which
      are the same code: the digits, cut at 11 and punctuated as far as
      they reach. */
  function Format(v: string): (r: string)
    ensures |r| == Arranged(Min(|Digits(v)|, 11))
    ensures |r| <= 14
  {
    Arrange(Digits(v))
  }

  /** The length of the layout of `n` digits. */
  function Arranged(n: nat): nat
  {
    if n <= 3 then n else if n <= 6 then n + 1 else if n <= 9 then n + 2 else n + 3
  }

  /** The layout of a digit string. */
  function Arrange(d: string): (r: string)
    ensures |r| == Arranged(Min(|d|, 11))
  {
    if |d| <= 3 then d
    else if |d| <= 6 then d[..3] + "." + d[3..]
    else if |d| <= 9 then d[..3] + "." + d[3..6] + "." + d[6..]
    else d[..3] + "." + d[3..6] + "." + d[6..9] + "-" + Slice(d, 9, 11)
  }

  /** Removing the punctuation from the output gives back the first
      `min(n, 11)` digits of the input. */
  lemma FormatKeepsDigits(v: string)
    ensures Digits(Format(v)) == Digits(v)[..Min(|Digits(v)|, 11)]
  {
    var d := Digits(v);
    if |d| <= 3 {
      DigitsOfDigits(d);
      assert d[..|d|] == d;
    } else if |d| <= 6 {
      ArrangeKeepsDigits2(d);
    } else if |d| <= 9 {
      ArrangeKeepsDigits3(d);
    } else {
      ArrangeKeepsDigits4(d);
    }
  }

  lemma ArrangeKeepsDigits2(d: string)
    requires AllDigits(d) && 3 < |d| <= 6
    ensures Digits(Arrange(d)) == d
  {
    SliceDigits(d, 0, 3);
    SliceDigits(d, 3, |d|);
    assert d[0..3] == d[..3] && d[3..|d|] == d[3..];
    assert Arrange(d) == d[..3] + "." + d[3..];
    DigitsAround(d[..3], ".", d[3..]);
    assert d[..3] + d[3..] == d;
  }

  lemma ArrangeKeepsDigits3(d: string)
    requires AllDigits(d) && 6 < |d| <= 9
    ensures Digits(Arrange(d)) == d
  {
    SliceDigits(d, 0, 3);
    SliceDigits(d, 3, 6);
    SliceDigits(d, 6, |d|);
    assert d[0..3] == d[..3] && d[6..|d|] == d[6..];
    assert Arrange(d) == d[..3] + "." + d[3..6] + "." + d[6..];
    DigitsAround(d[..3], ".", d[3..6]);
    DigitsAround(d[..3] + "." + d[3..6], ".", d[6..]);
    assert d[..3] + d[3..6] + d[6..] == d;
  }

  lemma ArrangeKeepsDigits4(d: string)
    requires AllDigits(d) && 9 < |d|
    ensures Digits(Arrange(d)) == d[..Min(|d|, 11)]
  {
    var m := Min(|d|, 11);
    assert Slice(d, 9, 11) == d[9..m];
    SliceDigits(d, 0, 3);
    SliceDigits(d, 3, 6);
    SliceDigits(d, 6, 9);
    SliceDigits(d, 9, m);
    var x := d[..3] + "." + d[3..6];
    DigitsAround(d[..3], ".", d[3..6]);
    DigitsAround(x, ".", d[6..9]);
    DigitsAround(x + "." + d[6..9], "-", d[9..m]);
    assert d[..3] + d[3..6] + d[6..9] + d[9..m] == d[..m];
  }

  /** Digits past the eleventh never show. */
  lemma ArrangeTruncates(d: string)
    ensures Arrange(d) == Arrange(d[..Min(|d|, 11)])
  {
    if |d| > 11 {
      var e := d[..11];
      assert e[..3] == d[..3] && e[3..6] == d[3..6] && e[6..9] == d[6..9];
      assert Slice(e, 9, 11) == e[9..11] == d[9..11] == Slice(d, 9, 11);
    } else {
      assert d[..|d|] == d;
    }
  }

  /** Formatting an already formatted value changes nothing. */
  lemma FormatIdempotent(v: string)
    ensures Format(Format(v)) == Format(v)
  {
    FormatKeepsDigits(v);
    ArrangeTruncates(Digits(v));
  }

  /** The output shapes by digit count. */
  lemma FormatShapes(v: string)
    ensures var d := Digits(v);
      && (|d| <= 3 ==> Format(v) == d)
      && (3 < |d| <= 6 ==> Format(v) == d[..3] + "." + d[3..])
      && (6 < |d| <= 9 ==> Format(v) == d[..3] + "." + d[3..6] + "." + d[6..])
      && (9 < |d| ==> Format(v) == d[..3] + "." + d[3..6] + "." + d[6..9] + "-" + d[9..Min(|d|, 11)])
  {
  }

  /** The profile page's `cpfSchema`: `^\d{3}\.\d{3}\.\d{3}-\d{2}$` (its
      `min(1)` is implied). */
  predicate CpfPattern(s: string)
  {
    |s| == 14 && forall i :: 0 <= i < 14 ==> CpfSlot(i, s[i])
  }

  /** What the pattern admits at position `i`. */
  predicate CpfSlot(i: int, c: char)
  {
    if i == 3 || i == 7 then c == '.' else if i == 11 then c == '-' else IsDigit(c)
  }

  /** A formatted value passes `cpfSchema` exactly when the typed input held
      at least 11 digits. */
  lemma FormatMatchesPattern(v: string)
    ensures CpfPattern(Format(v)) <==> |Digits(v)| >= 11
  {
    var d := Digits(v);
    if |d| >= 11 {
      var r := Format(v);
      assert r == d[..3] + "." + d[3..6] + "." + d[6..9] + "-" + d[9..11];
      forall i | 0 <= i < 14
        ensures CpfSlot(i, r[i])
      {
        if i < 3 { assert r[i] == d[i]; }
        else if 3 < i < 7 { assert r[i] == d[i - 1]; }
        else if 7 < i < 11 { assert r[i] == d[i - 2]; }
        else if 11 < i { assert r[i] == d[i - 3]; }
      }
    }
  }

  /** The signup pages' refine: an absent or empty CPF, or one whose digits
      match `^\d{11}$`. */
  predicate SignupCpfAccepted(cpf: Option<string>)
  {
    cpf.None? || cpf.value == "" || (|Digits(cpf.value)| == 11 && AllDigits(Digits(cpf.value)))
  }

  /** A non-empty formatted value passes the signup refine exactly when the
      typed input held at least 11 digits. */
  lemma FormatPassesSignup(v: string)
    requires Format(v) != ""
    ensures SignupCpfAccepted(Some(Format(v))) <==> |Digits(v)| >= 11
  {
    FormatKeepsDigits(v);
  }

  // Helpers about digits

  lemma SliceDigits(d: string, a: nat, b: nat)
    requires AllDigits(d) && a <= b <= |d|
    ensures AllDigits(d[a..b]) && Digits(d[a..b]) == d[a..b]
  {
    assert forall k :: 0 <= k < b - a ==> d[a..b][k] == d[a + k];
    DigitsOfDigits(d[a..b]);
  }

  /** Punctuation between two pieces drops out of their digits. */
  lemma DigitsAround(a: string, sep: string, b: string)
    requires forall k :: 0 <= k < |sep| ==> !IsDigit(sep[k])
    ensures Digits(a + sep + b) == Digits(a) + Digits(b)
  {
    DigitsAppend(a + sep, b);
    DigitsAppend(a, sep);
    NoDigits(sep);
    assert Digits(a + sep) == Digits(a) + Digits(sep) == Digits(a);
  }

  lemma {:induction false} NoDigits(s: string)
    requires forall k :: 0 <= k < |s| ==> !IsDigit(s[k])
    ensures Digits(s) == ""
    decreases |s|
  {
    if |s| > 0 {
      NoDigits(s[1..]);
    }
  }
}
