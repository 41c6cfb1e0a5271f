// Hexadecimal fields: the printer of the requests and the parser of the replies.
// A reply holds a number of n digits in a field of n bytes; decoding overwrites the
// digits with the number itself, in the host's little-endian order.
module HexField {
  import opened Wrappers

  function Power(base: nat, n: nat): (p: nat)
    ensures base > 0 ==> p > 0
  {
    if n == 0 then 1 else base * Power(base, n - 1)
  }

  // ----- std::from_chars with base 16 -----

  function Digit(b: byte): (d: Option<nat>)
    ensures d.Some? ==> d.value < 16
  {
    if 48 <= b <= 57 then Some(b - 48)
    else if 65 <= b <= 70 then Some(b - 55)
    else if 97 <= b <= 102 then Some(b - 87)
    else None
  }

  predicate AllDigits(s: seq<byte>)
  {
    forall i :: 0 <= i < |s| ==> Digit(s[i]).Some?
  }

  function Value(s: seq<byte>): nat
    requires AllDigits(s)
  {
    if s == [] then 0 else 16 * Value(s[..|s| - 1]) + Digit(s[|s| - 1]).value
  }

  // Length of the longest prefix of digits.
  function PrefixLength(s: seq<byte>): (n: nat)
    ensures n <= |s|
    ensures AllDigits(s[..n])
    ensures n < |s| ==> Digit(s[n]).None?
  {
    if s == [] || Digit(s[0]).None? then 0
    else
      var n := PrefixLength(s[1..]);
      assert forall i :: 0 <= i < n ==> s[1..][..n][i] == s[i + 1];
      n + 1
  }

  // The longest prefix of digits is taken and whatever follows it is ignored; there is
  // no value without a digit or beyond the largest value of the target type.
  function FromChars(s: seq<byte>, max: nat): Option<nat>
  {
    var n := PrefixLength(s);
    if n == 0 then None
    else if Value(s[..n]) > max then None
    else Some(Value(s[..n]))
  }

  lemma {:induction false} ValueBound(s: seq<byte>)
    requires AllDigits(s)
    ensures Value(s) < Power(16, |s|)
  {
    if s != [] {
      ValueBound(s[..|s| - 1]);
    }
  }

  lemma {:induction false} PowerMonotone(base: nat, m: nat, n: nat)
    requires base > 0 && m <= n
    ensures Power(base, m) <= Power(base, n)
    decreases n
  {
    if m < n {
      PowerMonotone(base, m, n - 1);
      var p := Power(base, n - 1);
      assert base * p >= p;
    }
  }

  lemma {:induction false} PowerSquares(n: nat)
    ensures Power(16, n) <= Power(256, n)
  {
    if n > 0 {
      PowerSquares(n - 1);
    }
  }

  // ----- decodeField -----

  // The number a field of |s| bytes decodes to, for an unsigned target of |s| bytes.
  function FieldValue(s: seq<byte>): Option<nat>
  {
    FromChars(s, Power(256, |s|) - 1)
  }

  // n digits always fit an n-byte target, so a field fails only by not starting with a
  // digit; from_chars never reports a value out of range here.
  lemma FieldParses(s: seq<byte>)
    ensures FieldValue(s).Some? <==> s != [] && Digit(s[0]).Some?
    ensures FieldValue(s).Some? ==>
      FieldValue(s).value == Value(s[..PrefixLength(s)]) && FieldValue(s).value < Power(16, |s|)
  {
    var n := PrefixLength(s);
    ValueBound(s[..n]);
    PowerMonotone(16, n, |s|);
    PowerSquares(|s|);
  }

  // ----- the host representation of a number -----

  function LittleEndian(v: nat, n: nat): (s: seq<byte>)
    ensures |s| == n
  {
    if n == 0 then [] else [v % 256] + LittleEndian(v / 256, n - 1)
  }

  function Host(s: seq<byte>): nat
  {
    if s == [] then 0 else s[0] + 256 * Host(s[1..])
  }

  lemma {:induction false} HostRoundTrip(v: nat, n: nat)
    requires v < Power(256, n)
    ensures Host(LittleEndian(v, n)) == v
  {
    if n > 0 {
      var p := Power(256, n - 1);
      assert v / 256 < p;
      HostRoundTrip(v / 256, n - 1);
    }
  }

  // The least significant byte comes first.
  lemma HostBytes(low: byte, rest: seq<byte>)
    ensures Host([low]) == low && Host([low] + rest) == low + 256 * Host(rest)
    ensures Host([1, 2, 3, 4]) == 0x4030201
  {
    assert ([low] + rest)[1..] == rest && [low][1..] == [];
    assert [1, 2, 3, 4][1..] == [2, 3, 4] && [2, 3, 4][1..] == [3, 4] && [3, 4][1..] == [4];
  }

  // ----- toHexString -----

  function DigitChar(d: nat): byte
    requires d < 16
  {
    if d < 10 then 48 + d else 55 + d
  }

  // The upper-case digits of v, without leading zeros beyond the single digit of zero.
  function Digits(v: nat): seq<byte>
  {
    if v < 16 then [DigitChar(v)] else Digits(v / 16) + [DigitChar(v % 16)]
  }

  // setw pads with '0' on the left and never truncates.
  function ToHexString(v: nat, width: nat): (s: seq<byte>)
    ensures |s| >= width
  {
    var d := Digits(v);
    seq(if |d| < width then width - |d| else 0, i => 48) + d
  }

  lemma {:induction false} DigitsRoundTrip(v: nat)
    ensures AllDigits(Digits(v)) && Value(Digits(v)) == v
  {
    if v < 16 {
      assert Digits(v)[..0] == [];
    } else {
      DigitsRoundTrip(v / 16);
      var d := Digits(v);
      assert d[..|d| - 1] == Digits(v / 16);
    }
  }

  lemma {:induction false} DigitsLength(v: nat, n: nat)
    requires n > 0
    ensures |Digits(v)| <= n <==> v < Power(16, n)
    decreases n
  {
    if v >= 16 {
      if n == 1 {
        assert Power(16, 1) == 16;
      } else {
        var p := Power(16, n - 1);
        DigitsLength(v / 16, n - 1);
        assert v / 16 < p <==> v < 16 * p;
      }
    } else {
      PowerMonotone(16, 1, n);
      assert Power(16, 1) == 16;
    }
  }

  lemma {:induction false} PaddedValue(k: nat, s: seq<byte>)
    requires AllDigits(s)
    ensures AllDigits(seq(k, i => 48 as byte) + s)
    ensures Value(seq(k, i => 48 as byte) + s) == Value(s)
  {
    var p := seq(k, i => 48 as byte);
    if s == [] {
      if k > 0 {
        PaddedValue(k - 1, []);
        assert (p + s)[..k - 1] == seq(k - 1, i => 48 as byte) + [];
      } else {
        assert p + s == [];
      }
    } else {
      var n := |s| - 1;
      PaddedValue(k, s[..n]);
      assert (p + s)[..k + n] == p + s[..n];
    }
  }

  lemma AllDigitsPrefix(s: seq<byte>)
    requires AllDigits(s)
    ensures PrefixLength(s) == |s|
  {
  }

  // Printing a number and decoding the printed field gives the number back, and the
  // field is exactly as wide as asked for when the number fits.
  lemma HexRoundTrip(v: nat, width: nat)
    requires width > 0
    ensures |ToHexString(v, width)| == width <==> v < Power(16, width)
    ensures FieldValue(ToHexString(v, width)) == Some(v)
  {
    var d, s := Digits(v), ToHexString(v, width);
    var k := if |d| < width then width - |d| else 0;
    DigitsLength(v, width);
    DigitsRoundTrip(v);
    assert s == seq(k, i => 48 as byte) + d;
    PaddedValue(k, d);
    AllDigitsPrefix(s);
    FieldParses(s);
    assert s[..|s|] == s;
  }

  // ----- the digits themselves -----

  lemma DigitText(d: nat)
    requires d < 16
    ensures DigitChar(d) == "0123456789ABCDEF"[d] as int
    ensures Digit("0123456789ABCDEF"[d] as int) == Digit("0123456789abcdef"[d] as int) == Some(d)
  {
    var upper, lower := "0123456789ABCDEF", "0123456789abcdef";
    if d < 8 {
      assert upper[d] as int == lower[d] as int == 48 + d;
    } else if d < 10 {
      assert upper[d] as int == lower[d] as int == 48 + d;
    } else {
      assert upper[d] as int == 55 + d && lower[d] as int == 87 + d;
    }
  }

  // There are no other digits.
  lemma OnlyDigits(b: byte)
    requires Digit(b).Some?
    ensures b == "0123456789ABCDEF"[Digit(b).value] as int || b == "0123456789abcdef"[Digit(b).value] as int
  {
    DigitText(Digit(b).value);
  }

  // What a field says, digit by digit: another digit multiplies by 16, and whatever follows
  // a byte that is none is ignored.
  lemma FieldDigits(s: seq<byte>, b: byte, rest: seq<byte>)
    requires AllDigits(s)
    ensures FieldValue([]) == None && FieldValue([b]) == Digit(b)
    ensures s != [] && Digit(b).Some? ==>
      FieldValue(s).Some? && FieldValue(s + [b]) == Some(16 * FieldValue(s).value + Digit(b).value)
    ensures Digit(b).None? ==> FieldValue(s + [b] + rest) == FieldValue(s)
  {
    hide Digit;
    FieldParses([]);
    FieldParses([b]);
    FieldParses(s);
    FieldParses(s + [b]);
    AllDigitsPrefix(s);
    assert s[..|s|] == s;
    assert [b][..0] == [] && [b][..1] == [b];
    if Digit(b).Some? {
      AllDigitsPrefix(s + [b]);
      AllDigitsPrefix([b]);
      assert (s + [b])[..|s|] == s && (s + [b])[..|s| + 1] == s + [b];
    } else {
      var t := s + [b] + rest;
      FieldParses(t);
      assert t[|s|] == b && t[..|s|] == s;
      PrefixEnds(t, |s|);
      assert s == [] ==> t[0] == b;
      assert s != [] ==> t[0] == s[0];
    }
  }

  lemma {:induction false} PrefixEnds(s: seq<byte>, n: nat)
    requires n < |s| && AllDigits(s[..n]) && Digit(s[n]).None?
    ensures PrefixLength(s) == n
  {
    hide Digit;
    if n > 0 {
      assert s[..n][0] == s[0];
      assert s[1..][..n - 1] == s[..n][1..];
      PrefixEnds(s[1..], n - 1);
    }
  }
}
