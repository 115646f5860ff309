/** Community invite codes: four random bytes written as base16 (section 8
    of RFC 4648) and upper-cased, and the retry loop that draws codes until
    one is free. The random source is a sequence of four-byte draws. */
module InviteCodes {

  import opened Wrappers
  import opened Text
  import Seqs

  type Byte = x: int | 0 <= x < 256

  /** One `crypto.randomBytes(4)`. */
  datatype Draw = Draw(b0: Byte, b1: Byte, b2: Byte, b3: Byte)

  function Bytes(d: Draw): seq<Byte>
  {
    [d.b0, d.b1, d.b2, d.b3]
  }

  const LowerDigits: string := "0123456789abcdef"
  const UpperDigits: string := "0123456789ABCDEF"

  /** `Buffer.toString('hex')`: two lower-case digits per byte, high nibble
      first. */
  function HexLower(bs: seq<Byte>): (r: string)
    ensures |r| == 2 * |bs|
  {
    if |bs| == 0 then ""
    else [LowerDigits[bs[0] / 16], LowerDigits[bs[0] % 16]] + HexLower(bs[1..])
  }

  /** A digit of the code alphabet. */
  predicate IsHexUpper(c: char)
  {
    '0' <= c <= '9' || 'A' <= c <= 'F'
  }

  function HexValue(c: char): (n: nat)
    requires IsHexUpper(c)
    ensures n < 16
    ensures UpperDigits[n] == c
  {
    if c <= '9' then c as int - '0' as int else c as int - 'A' as int + 10
  }

  /** Upper-casing a lower-case digit gives the upper-case digit of the same
      value. */
  lemma UpperDigit(n: nat)
    requires n < 16
    ensures UpperAscii(LowerDigits[n]) == UpperDigits[n]
    ensures IsHexUpper(UpperDigits[n])
  {
  }

  /** An upper-case digit reads back as its value. */
  lemma DigitValue(n: nat)
    requires n < 16
    ensures IsHexUpper(UpperDigits[n]) && HexValue(UpperDigits[n]) == n
  {
  }

  /** `gerarCodigo`: the upper-cased hex spelling of one draw. */
  function GenerateCode(d: Draw): (r: string)
    ensures |r| == 8
    ensures forall i :: 0 <= i < 8 ==> IsHexUpper(r[i])
  {
    var r := Upper(HexLower(Bytes(d)));
    UpperHexLower(Bytes(d));
    r
  }

  /** Decoding of an upper-case base16 string; `None` on an odd length or a
      character outside `0-9A-F`. */
  function Unhex(s: string): (r: Option<seq<Byte>>)
    ensures r.Some? ==> 2 * |r.value| == |s|
  {
    if |s| == 0 then Some([])
    else if |s| == 1 || !IsHexUpper(s[0]) || !IsHexUpper(s[1]) then None
    else
      match Unhex(s[2..])
      case None => None
      case Some(rest) => Some([HexValue(s[0]) * 16 + HexValue(s[1])] + rest)
  }

  /** Upper-cased lower-case hex is upper-case hex: every character is in
      the code alphabet. */
  lemma {:induction false} UpperHexLower(bs: seq<Byte>)
    ensures forall i :: 0 <= i < 2 * |bs| ==> IsHexUpper(Upper(HexLower(bs))[i])
  {
    if |bs| > 0 {
      var h := [LowerDigits[bs[0] / 16], LowerDigits[bs[0] % 16]];
      UpperHexLower(bs[1..]);
      UpperAppend(h, HexLower(bs[1..]));
      UpperDigit(bs[0] / 16);
      UpperDigit(bs[0] % 16);
      var r := Upper(HexLower(bs));
      forall i | 0 <= i < 2 * |bs|
        ensures IsHexUpper(r[i])
      {
        if i >= 2 {
          assert r[i] == Upper(HexLower(bs[1..]))[i - 2];
        }
      }
    }
  }

  /** The upper-cased spelling of one byte. */
  lemma UpperPair(b: Byte)
    ensures Upper([LowerDigits[b / 16], LowerDigits[b % 16]]) == [UpperDigits[b / 16], UpperDigits[b % 16]]
  {
    UpperDigit(b / 16);
    UpperDigit(b % 16);
  }

  /** Decoding undoes the encoding. */
  lemma UnhexOfHex(bs: seq<Byte>)
    ensures Unhex(Upper(HexLower(bs))) == Some(bs)
  {
    UpperOfHexLower(bs);
    UnhexOfUpperHex(bs);
  }

  /** Two upper-case digits per byte, high nibble first. */
  function UpperHex(bs: seq<Byte>): string
  {
    if |bs| == 0 then "" else [UpperDigits[bs[0] / 16], UpperDigits[bs[0] % 16]] + UpperHex(bs[1..])
  }

  lemma {:induction false} UpperOfHexLower(bs: seq<Byte>)
    ensures Upper(HexLower(bs)) == UpperHex(bs)
  {
    if |bs| == 0 {
      assert Upper(HexLower(bs)) == "";
    } else {
      UpperOfHexLower(bs[1..]);
      UpperHexCons(bs);
    }
  }

  lemma {:induction false} UnhexOfUpperHex(bs: seq<Byte>)
    ensures Unhex(UpperHex(bs)) == Some(bs)
  {
    if |bs| > 0 {
      var b, rest := bs[0], UpperHex(bs[1..]);
      UnhexOfUpperHex(bs[1..]);
      UnhexByte(b, rest);
      assert bs == [b] + bs[1..];
    }
  }

  /** Decoding reads a byte back from its two upper-case digits. */
  lemma UnhexByte(b: Byte, tail: string)
    requires Unhex(tail).Some?
    ensures Unhex([UpperDigits[b / 16], UpperDigits[b % 16]] + tail) == Some([b] + Unhex(tail).value)
  {
    var c0, c1 := UpperDigits[b / 16], UpperDigits[b % 16];
    assert IsHexUpper(c0) && IsHexUpper(c1) && HexValue(c0) * 16 + HexValue(c1) == b by {
      DigitValue(b / 16);
      DigitValue(b % 16);
    }
    UnhexPair(c0, c1, tail);
  }

  /** The upper-cased spelling of a sequence starts with that of its first
      byte. */
  lemma UpperHexCons(bs: seq<Byte>)
    requires |bs| > 0
    ensures Upper(HexLower(bs)) == [UpperDigits[bs[0] / 16], UpperDigits[bs[0] % 16]] + Upper(HexLower(bs[1..]))
  {
    var h := [LowerDigits[bs[0] / 16], LowerDigits[bs[0] % 16]];
    assert HexLower(bs) == h + HexLower(bs[1..]);
    UpperAppend(h, HexLower(bs[1..]));
    UpperPair(bs[0]);
  }

  /** Decoding reads one byte from its two upper-case digits. */
  lemma UnhexPair(c0: char, c1: char, tail: string)
    requires IsHexUpper(c0) && IsHexUpper(c1)
    ensures Unhex([c0, c1] + tail)
      == if Unhex(tail).Some? then Some([HexValue(c0) * 16 + HexValue(c1)] + Unhex(tail).value) else None
  {
    assert ([c0, c1] + tail)[2..] == tail;
  }

  /** Encoding undoes the decoding: every upper-case hex string of even
      length is the code of the bytes it decodes to. */
  lemma {:induction false} HexOfUnhex(s: string)
    requires Unhex(s).Some?
    ensures Upper(HexLower(Unhex(s).value)) == s
    decreases |s|
  {
    if |s| > 0 {
      var bs := Unhex(s).value;
      var b := bs[0];
      assert b == HexValue(s[0]) * 16 + HexValue(s[1]);
      assert b / 16 == HexValue(s[0]) && b % 16 == HexValue(s[1]);
      HexOfUnhex(s[2..]);
      assert bs[1..] == Unhex(s[2..]).value;
      var h := [LowerDigits[b / 16], LowerDigits[b % 16]];
      UpperAppend(h, HexLower(bs[1..]));
      UpperDigit(b / 16);
      UpperDigit(b % 16);
      assert Upper(h) == s[..2];
      assert s == s[..2] + s[2..];
    }
  }

  /** The code determines the draw: two draws give the same code only when
      they are the same bytes. */
  lemma GenerateCodeInjective(d1: Draw, d2: Draw)
    requires GenerateCode(d1) == GenerateCode(d2)
    ensures d1 == d2
  {
    UnhexOfHex(Bytes(d1));
    UnhexOfHex(Bytes(d2));
    assert Bytes(d1) == Bytes(d2);
  }

  /** `findUnique({ where: { codigo } })` finds a row. */
  predicate CodeTaken(codes: set<string>, code: string)
  {
    code in codes
  }

  /** The retry loop of the create handler: the index of the first draw
      whose code no community holds, or `None` when the draws run out first
      (the handler would still be looping). */
  function PickCode(codes: set<string>, draws: seq<Draw>): (r: Option<nat>)
    ensures r.Some? ==> r.value < |draws| && !CodeTaken(codes, GenerateCode(draws[r.value]))
    ensures r.Some? ==> forall i :: 0 <= i < r.value ==> CodeTaken(codes, GenerateCode(draws[i]))
    ensures r.None? <==> forall i :: 0 <= i < |draws| ==> CodeTaken(codes, GenerateCode(draws[i]))
  {
    Seqs.FirstIndex(draws, (d: Draw) => !CodeTaken(codes, GenerateCode(d)))
  }

  /** Fewer codes taken than there are draws with pairwise different bytes:
      the loop stops within the stream. */
  lemma {:induction false} PickCodeStops(codes: set<string>, draws: seq<Draw>)
    requires forall i, j :: 0 <= i < j < |draws| ==> draws[i] != draws[j]
    requires |codes| < |draws|
    ensures PickCode(codes, draws).Some?
  {
    if PickCode(codes, draws).None? {
      var f := (d: Draw) => GenerateCode(d);
      var drawn := Images(draws, f);
      assert drawn <= codes;
      DistinctCodes(draws);
      DistinctImages(draws, f);
      SubsetSize(drawn, codes);
      assert false;
    }
  }

  /** Pairwise different draws give pairwise different codes. */
  lemma DistinctCodes(draws: seq<Draw>)
    requires forall i, j :: 0 <= i < j < |draws| ==> draws[i] != draws[j]
    ensures forall i, j :: 0 <= i < j < |draws| ==> GenerateCode(draws[i]) != GenerateCode(draws[j])
  {
    forall i, j | 0 <= i < j < |draws|
      ensures GenerateCode(draws[i]) != GenerateCode(draws[j])
    {
      if GenerateCode(draws[i]) == GenerateCode(draws[j]) {
        GenerateCodeInjective(draws[i], draws[j]);
      }
    }
  }

  /** The images of the elements of a sequence. */
  function Images<T, U>(xs: seq<T>, f: T -> U): set<U>
  {
    set i | 0 <= i < |xs| :: f(xs[i])
  }

  /** Pairwise different images of the elements of a sequence make a set as
      large as the sequence. */
  lemma {:induction false} DistinctImages<T, U>(xs: seq<T>, f: T -> U)
    requires forall i, j :: 0 <= i < j < |xs| ==> f(xs[i]) != f(xs[j])
    ensures |Images(xs, f)| == |xs|
    decreases |xs|
  {
    if |xs| > 0 {
      var n := |xs| - 1;
      var init := xs[..n];
      DistinctImages(init, f);
      var before := Images(init, f);
      var all := Images(xs, f);
      assert all == before + {f(xs[n])} by {
        forall c | c in all
          ensures c in before + {f(xs[n])}
        {
          var i :| 0 <= i < |xs| && c == f(xs[i]);
          if i < n {
            assert init[i] == xs[i];
          }
        }
      }
      assert f(xs[n]) !in before by {
        forall i | 0 <= i < n
          ensures f(init[i]) != f(xs[n])
        {
          assert init[i] == xs[i];
        }
      }
    }
  }

  /** A subset is no larger than its superset. */
  lemma {:induction false} SubsetSize<T>(a: set<T>, b: set<T>)
    requires a <= b
    ensures |a| <= |b|
    decreases |a|
  {
    if a != {} {
      var x :| x in a;
      SubsetSize(a - {x}, b - {x});
    }
  }
}
