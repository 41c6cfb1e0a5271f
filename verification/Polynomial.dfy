// Polynomials over GF(2) as bit strings, highest power first: bit i of a string of
// length n is the coefficient of x^(n-1-i). This is the reference that the
// reflected byte-wise CRC of the driver is proved against; nothing in this module
// mentions registers or shifts.
module Polynomial {

  type Bits = seq<bool>

  function Zeros(n: nat): (z: Bits)
    ensures |z| == n
    ensures forall i :: 0 <= i < n ==> !z[i]
  {
    seq(n, i => false)
  }

  // Addition (and subtraction) of two polynomials written with the same number of bits.
  function Xor(a: Bits, b: Bits): (c: Bits)
    requires |a| == |b|
    ensures |c| == |a|
    ensures forall i :: 0 <= i < |a| ==> c[i] == (a[i] != b[i])
  {
    seq(|a|, i requires 0 <= i < |a| => a[i] != b[i])
  }

  function Scale(c: bool, g: Bits): (s: Bits)
    ensures |s| == |g|
  {
    if c then g else Zeros(|g|)
  }

  // Schoolbook product: q = q' * x + c gives q * g = (q' * g) * x + c * g.
  function Product(q: Bits, g: Bits): (p: Bits)
    requires |g| > 0
    ensures |p| == |q| + |g| - 1
  {
    if q == [] then Zeros(|g| - 1)
    else
      var n := |q| - 1;
      Xor(Product(q[..n], g) + [false], Zeros(n) + Scale(q[n], g))
  }

  // The generator x^16 + x^12 + x^5 + 1 of section 2 of ITU-T Recommendation V.41;
  // index i stands for the power 16 - i.
  function Generator(): (g: Bits)
    ensures |g| == 17
    ensures forall i :: 0 <= i < 17 ==> g[i] == (i == 0 || i == 4 || i == 11 || i == 16)
  {
    seq(17, i => i == 0 || i == 4 || i == 11 || i == 16)
  }

  // message * x^16 == quotient * Generator() + r, with r below degree 16.
  ghost predicate Divides(message: Bits, quotient: Bits, r: Bits)
  {
    && |r| == 16
    && |quotient| == |message|
    && message + Zeros(16) == Xor(Product(quotient, Generator()), Zeros(|message|) + r)
  }

  // r is the remainder of message * x^16 divided by the generator.
  ghost predicate IsRemainder(message: Bits, r: Bits)
  {
    exists quotient :: Divides(message, quotient, r)
  }

  // The last step of the schoolbook product, bit by bit.
  lemma {:induction false} ProductAt(q: Bits, g: Bits, i: nat)
    requires |g| > 0 && q != [] && i < |q| + |g| - 1
    ensures Product(q, g)[i]
         == ((i < |q| + |g| - 2 && Product(q[..|q| - 1], g)[i])
             != (i >= |q| - 1 && q[|q| - 1] && g[i - (|q| - 1)]))
  {
    var n := |q| - 1;
    assert Product(q, g)[i] == ((Product(q[..n], g) + [false])[i] != (Zeros(n) + Scale(q[n], g))[i]);
  }

  lemma {:induction false} ZeroProduct(n: nat, g: Bits)
    requires |g| > 0
    ensures Product(Zeros(n), g) == Zeros(n + |g| - 1)
  {
    if n > 0 {
      assert Zeros(n)[..n - 1] == Zeros(n - 1);
      ZeroProduct(n - 1, g);
    }
  }

  // A product whose |q| leading bits vanish has a zero quotient, so all of it vanishes.
  lemma {:induction false} LeadingZeros(q: Bits, g: Bits)
    requires |g| > 0 && g[0]
    requires forall i :: 0 <= i < |q| ==> !Product(q, g)[i]
    ensures q == Zeros(|q|)
  {
    hide Product;
    if q != [] {
      var n := |q| - 1;
      forall i | 0 <= i < n ensures !Product(q[..n], g)[i] {
        ProductAt(q, g, i);
      }
      LeadingZeros(q[..n], g);
      ZeroProduct(n, g);
      ProductAt(q, g, n);
      assert q == q[..n] + [q[n]];
    }
  }

  // A product whose 16 lowest bits vanish, with a quotient of at most 16 bits, is zero:
  // the generator has a constant term.
  lemma {:induction false} TrailingZeros(q: Bits, low: nat)
    requires |q| <= low <= |q| + 16
    requires forall i :: |q| + 16 - low <= i < |q| + 16 ==> !Product(q, Generator())[i]
    ensures q == Zeros(|q|)
  {
    if q != [] {
      var n := |q| - 1;
      var high := Product(q[..n], Generator());
      var last := n + 16;
      assert Product(q, Generator())[last]
          == ((high + [false])[last] != (Zeros(n) + Scale(q[n], Generator()))[last]);
      assert !q[n];
      forall i | n + 16 - (low - 1) <= i < n + 16 ensures !high[i] {
        assert Product(q, Generator())[i]
            == ((high + [false])[i] != (Zeros(n) + Scale(q[n], Generator()))[i]);
      }
      TrailingZeros(q[..n], low - 1);
    }
  }

  lemma DistributesAt(a: Bits, b: Bits, g: Bits, i: nat)
    requires |a| == |b| && |g| > 0 && a != [] && i < |a| + |g| - 1
    requires var n := |a| - 1; Product(Xor(a[..n], b[..n]), g) == Xor(Product(a[..n], g), Product(b[..n], g))
    ensures Product(Xor(a, b), g)[i] == (Product(a, g)[i] != Product(b, g)[i])
  {
    hide Product;
    var n := |a| - 1;
    assert Xor(a, b)[..n] == Xor(a[..n], b[..n]);
    ProductAt(Xor(a, b), g, i);
    ProductAt(a, g, i);
    ProductAt(b, g, i);
  }

  lemma {:induction false} ProductDistributes(a: Bits, b: Bits, g: Bits)
    requires |a| == |b| && |g| > 0
    ensures Product(Xor(a, b), g) == Xor(Product(a, g), Product(b, g))
  {
    if a == [] {
      assert Xor(a, b) == [];
    } else {
      hide Product;
      ProductDistributes(a[..|a| - 1], b[..|a| - 1], g);
      forall i | 0 <= i < |a| + |g| - 1
        ensures Product(Xor(a, b), g)[i] == (Product(a, g)[i] != Product(b, g)[i])
      {
        DistributesAt(a, b, g, i);
      }
    }
  }

  // Division by the generator has only one remainder.
  lemma RemainderUnique(message: Bits, r1: Bits, r2: Bits)
    requires IsRemainder(message, r1) && IsRemainder(message, r2)
    ensures r1 == r2
  {
    var q1 :| Divides(message, q1, r1);
    var q2 :| Divides(message, q2, r2);
    var n := |message|;
    var p1, p2 := Product(q1, Generator()), Product(q2, Generator());
    var t1, t2 := Zeros(n) + r1, Zeros(n) + r2;
    ProductDistributes(q1, q2, Generator());
    var p := Product(Xor(q1, q2), Generator());
    forall i | 0 <= i < n + 16 ensures p[i] == (t1[i] != t2[i]) {
      assert (message + Zeros(16))[i] == (p1[i] != t1[i]);
      assert (message + Zeros(16))[i] == (p2[i] != t2[i]);
    }
    LeadingZeros(Xor(q1, q2), Generator());
    ZeroProduct(n, Generator());
    forall i | 0 <= i < 16 ensures r1[i] == r2[i] {
      assert !p[n + i];
    }
  }

  // A non-zero message of at most 16 bits is never divisible by the generator.
  lemma ShortMessageHasRemainder(message: Bits)
    requires |message| <= 16
    requires IsRemainder(message, Zeros(16))
    ensures message == Zeros(|message|)
  {
    var q :| Divides(message, q, Zeros(16));
    var n := |message|;
    var p := Product(q, Generator());
    forall i | 0 <= i < n + 16 ensures (message + Zeros(16))[i] == p[i] {
      assert !(Zeros(n) + Zeros(16))[i];
    }
    TrailingZeros(q, 16);
    assert forall i :: 0 <= i < n ==> !p[i] by {
      ZeroProduct(n, Generator());
    }
    forall i | 0 <= i < n ensures !message[i] {
      assert (message + Zeros(16))[i] == p[i];
    }
  }
}
