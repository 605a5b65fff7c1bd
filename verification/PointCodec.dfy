/** adssignal/adsElliptic.go: modular square root and compressed points, over any curve
    y^2 = x^3 - 3x + b whose field is a prime that is 3 modulo 4 (P-256 is one). */
module PointCodec {
  import opened Basics
  import opened NumberTheory
  import opened Bytes

  /** uncompressed stands for the standard library's decoder of uncompressed points. */
  datatype Curve = Curve(p: nat, b: int, bitSize: nat, uncompressed: Bytes -> Option<Point>) {
    function ByteLen(): nat {
      (bitSize + 7) / 8
    }

    ghost predicate Valid() {
      IsPrime(p) && p % 4 == 3 && p <= Pow(2, bitSize)
    }

    /** The right-hand side of the curve equation, as it is computed. */
    function Rhs(x: int): int
      requires p > 0
    {
      ((x * x - 3) * x + b) % p
    }

    /** The curve equation. */
    ghost predicate Satisfies(q: Point)
      requires p > 0
    {
      Cong(q.y * q.y, q.x * q.x * q.x - 3 * q.x + b, p)
    }

    ghost predicate OnCurve(q: Point)
      requires p > 0
    {
      q.x < p && q.y < p && Satisfies(q)
    }
  }

  datatype Point = Point(x: nat, y: nat)

  // ---- ModSqrt ----

  function BitLen(n: nat): nat {
    if n == 0 then 0 else 1 + BitLen(n / 2)
  }

  /** n without its lowest i bits. */
  function Prefix(n: nat, i: nat): nat {
    PowPositive(2, i);
    n / Pow(2, i)
  }

  function Bit(n: nat, i: nat): nat {
    Prefix(n, i) % 2
  }

  /** The candidate root: a to the (p + 1) / 4, rounded down, modulo p. */
  function Sqrt(a: int, p: nat): (r: nat)
    requires p > 0
    ensures r < p
  {
    Pow(a, (p + 1) / 4) % p
  }

  ghost predicate IsSquare(a: int, p: nat)
    requires p > 0
  {
    exists y: int :: SquareIs(y, a, p)
  }

  ghost predicate SquareIs(y: int, a: int, p: nat)
    requires p > 0
  {
    Cong(y * y, a, p)
  }

  lemma {:induction false} PowBitLen(n: nat)
    ensures Pow(2, BitLen(n)) > n
  {
    if n > 0 { PowBitLen(n / 2); }
  }

  lemma PrefixEnds(n: nat)
    ensures Prefix(n, BitLen(n)) == 0
    ensures Prefix(n, 2) == n / 4
  {
    PowBitLen(n);
    DivModUnique(0, n, Pow(2, BitLen(n)));
    assert Pow(2, 2) == 2 * (2 * 1);
  }

  lemma PrefixStep(n: nat, i: nat)
    ensures Prefix(n, i) == 2 * Prefix(n, i + 1) + Bit(n, i)
  {
    PowPositive(2, i);
    var d := Pow(2, i);
    var q, r := n / d, n % d;
    assert Pow(2, i + 1) == 2 * d;
    assert n == q * d + r;
    var r' := (q % 2) * d + r;
    assert n == (q / 2) * (2 * d) + r' by {
      assert (2 * (q / 2) + q % 2) * d == (q / 2) * (2 * d) + (q % 2) * d;
    }
    assert 0 <= r' < 2 * d;
    DivModUnique(q / 2, r', 2 * d);
  }

  lemma SquareStep(a: int, e: nat, p: nat, result: int)
    requires p > 0 && result == Pow(a, e) % p
    ensures (result * result) % p == Pow(a, 2 * e) % p
    ensures (((result * result) % p) * a) % p == Pow(a, 2 * e + 1) % p
  {
    var x, s := Pow(a, e), (result * result) % p;
    CongMod(x, p);
    CongMul(result, x, result, x, p);
    PowAdd(a, e, e);
    CongMod(result * result, p);
    CongTrans(s, result * result, Pow(a, 2 * e), p);
    SameRemainder(Pow(a, 2 * e), s, p);
    CongFrom(a, a, 0, p);
    CongMul(s, Pow(a, 2 * e), a, a, p);
    assert Pow(a, 2 * e + 1) == a * Pow(a, 2 * e);
    CongMod(s * a, p);
    CongTrans((s * a) % p, s * a, Pow(a, 2 * e + 1), p);
    SameRemainder(Pow(a, 2 * e + 1), (s * a) % p, p);
  }

  lemma SameRemainder(x: int, r: int, p: int)
    requires 0 <= r < p && Cong(r, x, p)
    ensures x % p == r
  {
    CongSym(r, x, p);
    ModIs(x, r, p);
  }

  /** The loop's result once the bits of n from i upwards are consumed. */
  function Partial(a: int, n: nat, i: nat, p: nat): int
    requires p > 0
  {
    Pow(a, Prefix(n, i)) % p
  }

  lemma PartialStep(a: int, n: nat, i: nat, p: nat, x: int)
    requires p > 0 && x == Partial(a, n, i + 1, p)
    ensures Partial(a, n, i, p) == if Bit(n, i) > 0 then (((x * x) % p) * a) % p else (x * x) % p
  {
    PrefixStep(n, i);
    SquareStep(a, Prefix(n, i + 1), p, x);
  }

  lemma PartialEnds(a: int, n: nat, p: nat)
    requires p >= 2
    ensures Partial(a, n, BitLen(n), p) == 1 && Partial(a, n, 2, p) == Pow(a, n / 4) % p
  {
    PrefixEnds(n);
  }

  /** Square-and-multiply over the bits of p + 1 above the lowest two. */
  method ModSqrt(a: int, p: nat) returns (z: nat)
    requires p >= 2
    ensures z == Sqrt(a, p)
  {
    var p1 := 1 + p;
    var result := 1;
    var i := BitLen(p1) - 1;
    PartialEnds(a, p1, p);
    while i > 1
      invariant 1 <= i
      invariant result == Partial(a, p1, i + 1, p)
    {
      PartialStep(a, p1, i, p, result);
      result := result * result;
      result := result % p;
      if Bit(p1, i) > 0 {
        result := result * a;
        result := result % p;
      }
      i := i - 1;
    }
    z := result;
  }

  // ---- what the candidate root is ----

  /** The candidate's square is a times a to the (p - 1) / 2. */
  lemma SqrtSquared(a: int, p: nat)
    requires IsPrime(p) && p % 4 == 3
    ensures Cong(Sqrt(a, p) * Sqrt(a, p), a * Pow(a, (p - 1) / 2), p)
  {
    var m := (p + 1) / 4;
    CongMod(Pow(a, m), p);
    CongMul(Sqrt(a, p), Pow(a, m), Sqrt(a, p), Pow(a, m), p);
    PowAdd(a, m, m);
    assert m + m == 1 + (p - 1) / 2;
  }

  /** Two numbers with the same square are equal or opposite. */
  lemma SameSquare(x: int, y: int, p: nat)
    requires IsPrime(p) && Cong(x * x, y * y, p)
    ensures Cong(x, y, p) || Cong(x, -y, p)
  {
    assert x * x - y * y == (x - y) * (x + y);
    PrimeDividesProduct(x - y, x + y, p);
    assert x + y == x - (-y);
  }

  /** Euler's criterion, first half: a to the (p - 1) / 2 is 1 or -1. */
  lemma HalfPower(a: int, p: nat)
    requires IsPrime(p) && p % 4 == 3 && !Divides(p, a)
    ensures Cong(Pow(a, (p - 1) / 2), 1, p) || Cong(Pow(a, (p - 1) / 2), -1, p)
  {
    var h := (p - 1) / 2;
    Fermat(a, p);
    PowAdd(a, h, h);
    SameSquare(Pow(a, h), 1, p);
  }

  /** For every a the candidate is a root of a or of -a. */
  lemma SqrtOfEither(a: int, p: nat)
    requires IsPrime(p) && p % 4 == 3
    ensures SquareIs(Sqrt(a, p), a, p) || SquareIs(Sqrt(a, p), -a, p)
  {
    var r, x := Sqrt(a, p), Pow(a, (p - 1) / 2);
    SqrtSquared(a, p);
    CongFrom(a, a, 0, p);
    if Divides(p, a) {
      CongFrom(x, x, 0, p);
      assert a - 0 == a;
      CongMul(a, 0, x, x, p);
      assert 0 * x == 0;
      CongTrans(r * r, a * x, 0, p);
      CongSym(a, 0, p);
      CongTrans(r * r, 0, a, p);
    } else {
      HalfPower(a, p);
      var s := if Cong(x, 1, p) then 1 else -1;
      CongMul(a, a, x, s, p);
      CongTrans(r * r, a * x, a * s, p);
    }
  }

  /** The square of a number is not the opposite of another one's, unless both vanish. */
  lemma OppositeSquares(x: int, y: int, p: nat)
    requires IsPrime(p) && p % 4 == 3 && Cong(x * x, -(y * y), p)
    ensures Divides(p, y)
  {
    if !Divides(p, y) {
      // raising to the odd power (p - 1) / 2 turns the hypothesis into 1 = -1
      var h := (p - 1) / 2;
      CongPow(x * x, -(y * y), h, p);
      if Divides(p, x) {
        assert x - 0 == x;
        CongMul(x, 0, x, 0, p);
        CongSym(x * x, 0, p);
        CongTrans(0, x * x, -(y * y), p);
        CongSym(0, -(y * y), p);
        CongNeg(-(y * y), 0, p);
        assert y * y - 0 == y * y;
        PrimeDividesProduct(y, y, p);
      } else {
        SquarePower(x, p);
        SquarePower(y, p);
        OddPower(y * y, h);
        CongNeg(Pow(y * y, h), 1, p);
        CongSym(Pow(x * x, h), 1, p);
        CongTrans(1, Pow(x * x, h), Pow(-(y * y), h), p);
        CongTrans(1, Pow(-(y * y), h), -1, p);
        DivModUnique(0, 2, p);
      }
    }
  }

  lemma SquarePower(x: int, p: nat)
    requires IsPrime(p) && p % 4 == 3 && !Divides(p, x)
    ensures Cong(Pow(x * x, (p - 1) / 2), 1, p)
  {
    var h := (p - 1) / 2;
    PowProduct(x, x, h);
    PowAdd(x, h, h);
    Fermat(x, p);
  }

  lemma {:induction false} OddPower(a: int, h: nat)
    ensures Pow(-a, h) == if h % 2 == 1 then -Pow(a, h) else Pow(a, h)
  {
    if h > 0 {
      OddPower(a, h - 1);
      assert (-a) * Pow(a, h - 1) == -(a * Pow(a, h - 1));
      assert (-a) * -Pow(a, h - 1) == a * Pow(a, h - 1);
    }
  }

  /** ModSqrt squares back to its argument exactly when the argument is a square. */
  lemma SqrtCorrect(a: int, p: nat)
    requires IsPrime(p) && p % 4 == 3
    ensures SquareIs(Sqrt(a, p), a, p) <==> IsSquare(a, p)
  {
    var r := Sqrt(a, p);
    if IsSquare(a, p) && !SquareIs(r, a, p) {
      var y :| SquareIs(y, a, p);
      SqrtOfEither(a, p);
      // then r * r = -a = -(y * y), so r and y both vanish
      CongNeg(y * y, a, p);
      CongSym(-(y * y), -a, p);
      CongTrans(r * r, -a, -(y * y), p);
      BothVanish(r, y, p);
      CongMul(r, y, r, y, p);
      CongTrans(r * r, y * y, a, p);
    }
  }

  // ---- Marshal and Unmarshal ----

  /** The compressed form: a parity byte, then x on exactly ByteLen bytes. */
  function EncodePoint(c: Curve, q: Point): (data: Bytes)
    ensures |data| == 1 + c.ByteLen()
  {
    [2 + q.y % 2] + FixedBytes(q.x, c.ByteLen())
  }

  predicate IsCompressed(c: Curve, data: Bytes) {
    |data| == 1 + c.ByteLen() && (data[0] == 2 || data[0] == 3)
  }

  /** The point a compressed form stands for; anything else is left to the decoder of uncompressed points. */
  function DecodePoint(c: Curve, data: Bytes): Option<Point>
    requires c.p > 0
  {
    if !IsCompressed(c, data) then c.uncompressed(data) else
    var x := BigEndian(data[1..]);
    var r := Sqrt(c.Rhs(x), c.p);
    Some(Point(x, PickRoot(r, data[0] % 2, c.p)))
  }

  /** The one of r and p - r that has the given parity. */
  function PickRoot(r: nat, parity: nat, p: nat): nat
    requires r <= p
  {
    if r % 2 == parity then r else p - r
  }

  method Marshal(c: Curve, q: Point) returns (ret: array<byte>)
    requires q.x < Pow(256, c.ByteLen())
    ensures fresh(ret) && ret[..] == EncodePoint(c, q)
  {
    var byteLen := c.ByteLen();
    ret := new byte[1 + byteLen](_ => 0);
    ret[0] := 2 + q.y % 2;
    var xBytes := MinimalBytes(q.x);
    PaddedMinimal(q.x, byteLen);
    var start := 1 + byteLen - |xBytes|;
    forall k | 0 <= k < |xBytes| {
      ret[start + k] := xBytes[k];
    }
    assert ret[..] == [2 + q.y % 2] + (Zeros(byteLen - |xBytes|) + xBytes);
  }

  method Unmarshal(c: Curve, data: Bytes) returns (q: Option<Point>)
    requires c.p >= 2
    ensures q == DecodePoint(c, data)
    ensures |data| != 1 + c.ByteLen() || (data[0] != 2 && data[0] != 3) ==> q == c.uncompressed(data)
  {
    if |data| != 1 + c.ByteLen() || (data[0] != 0x02 && data[0] != 0x03) {
      return c.uncompressed(data);
    }
    var x := BigEndian(data[1..]);
    var y := x * x;
    y := y - 3;
    y := y * x;
    y := y + c.b;
    y := y % c.p;
    y := ModSqrt(y, c.p);
    if y % 2 != data[0] % 2 {
      y := c.p - y;
    }
    q := Some(Point(x, y));
  }

  predicate ComparePoints(p1: Point, p2: Point) {
    p1.x == p2.x && p1.y == p2.y
  }

  // ---- the round trips ----

  lemma {:induction false} PowMonotone(b: int, e: nat, f: nat)
    requires b >= 1 && e <= f
    ensures Pow(b, e) <= Pow(b, f)
    decreases f
  {
    PowPositive(b, f);
    if e < f {
      PowMonotone(b, e, f - 1);
      PowPositive(b, f - 1);
      assert b * Pow(b, f - 1) >= Pow(b, f - 1);
    }
  }

  lemma {:induction false} BytePower(n: nat)
    ensures Pow(256, n) == Pow(2, 8 * n)
  {
    if n > 0 {
      BytePower(n - 1);
      PowAdd(2, 8, 8 * (n - 1));
      assert Pow(2, 8) == 256;
    }
  }

  lemma CoordinateFits(c: Curve)
    requires c.Valid()
    ensures c.p <= Pow(256, c.ByteLen())
  {
    BytePower(c.ByteLen());
    PowMonotone(2, c.bitSize, 8 * c.ByteLen());
  }

  /** Of the two candidates for y, the parity byte picks the right one. */
  lemma ParityPicks(r: nat, y: nat, p: nat)
    requires IsPrime(p) && p % 4 == 3 && r < p && y < p
    requires Cong(r, y, p) || Cong(r, -(y as int), p)
    ensures PickRoot(r, y % 2, p) == y
  {
    if Cong(r, y, p) {
      CongSmall(r, y, p);
    } else if y == 0 {
      CongSmall(r, 0, p);
    } else {
      var k := CongQuotient(r, -(y as int), p);
      assert r == (p - y) + (k - 1) * p;
      CongFrom(r, p - y, k - 1, p);
      CongSmall(r, p - y, p);
    }
  }

  /** A root of a or of -a is the candidate or its opposite. */
  lemma RootsOfSameValue(y: int, a: int, p: nat)
    requires IsPrime(p) && p % 4 == 3 && (SquareIs(y, a, p) || SquareIs(y, -a, p))
    ensures Cong(Sqrt(a, p), y, p) || Cong(Sqrt(a, p), -y, p)
  {
    var r := Sqrt(a, p);
    SqrtOfEither(a, p);
    var s := if SquareIs(r, a, p) then a else -a;
    if SquareIs(y, s, p) {
      CongSym(y * y, s, p);
      CongTrans(r * r, s, y * y, p);
      SameSquare(r, y, p);
    } else {
      CongNeg(y * y, -s, p);
      CongSym(-(y * y), s, p);
      CongTrans(r * r, s, -(y * y), p);
      BothVanish(r, y, p);
    }
  }

  lemma BothVanish(r: int, y: int, p: nat)
    requires IsPrime(p) && p % 4 == 3 && Cong(r * r, -(y * y), p)
    ensures Cong(r, y, p)
  {
    OppositeSquares(r, y, p);
    CongNeg(r * r, -(y * y), p);
    CongSym(-(r * r), y * y, p);
    OppositeSquares(y, r, p);
    assert r - 0 == r && y - 0 == y;
    CongSym(y, 0, p);
    CongTrans(r, 0, y, p);
  }

  /** p - r is a root of whatever r is. */
  lemma OppositeRoot(r: nat, p: nat)
    requires p > 0 && r < p
    ensures forall a {:trigger SquareIs(r, a, p)} :: SquareIs(r, a, p) ==> SquareIs(p - r, a, p)
  {
    forall a | SquareIs(r, a, p) ensures SquareIs(p - r, a, p) {
      assert (p - r) * (p - r) == r * r + (p - 2 * r) * p;
      CongFrom((p - r) * (p - r), r * r, p - 2 * r, p);
      CongTrans((p - r) * (p - r), r * r, a, p);
    }
  }

  lemma DecodedForm(c: Curve, q: Point)
    requires c.Valid() && q.x < c.p
    ensures DecodePoint(c, EncodePoint(c, q))
      == Some(Point(q.x, PickRoot(Sqrt(c.Rhs(q.x), c.p), q.y % 2, c.p)))
  {
    CoordinateFits(c);
    FixedBytesValue(q.x, c.ByteLen());
    var data := EncodePoint(c, q);
    assert data[1..] == FixedBytes(q.x, c.ByteLen());
    RemainderOfTwo(data[0], 1, q.y % 2);
  }

  /** Decoding an encoded point with reduced coordinates gives it back exactly when y is a root
      of the right-hand side or of its opposite; nothing checks which of the two it is. */
  lemma DecodeEncode(c: Curve, q: Point)
    requires c.Valid() && q.x < c.p && q.y < c.p
    ensures DecodePoint(c, EncodePoint(c, q)) == Some(q)
      <==> SquareIs(q.y, c.Rhs(q.x), c.p) || SquareIs(q.y, -c.Rhs(q.x), c.p)
  {
    DecodedForm(c, q);
    PickedRoot(c.Rhs(q.x), q.y, c.p);
  }

  lemma PickedRoot(a: int, y: nat, p: nat)
    requires IsPrime(p) && p % 4 == 3 && y < p
    ensures PickRoot(Sqrt(a, p), y % 2, p) == y <==> SquareIs(y, a, p) || SquareIs(y, -a, p)
  {
    var r := Sqrt(a, p);
    if SquareIs(y, a, p) || SquareIs(y, -a, p) {
      RootsOfSameValue(y, a, p);
      ParityPicks(r, y, p);
    }
    SqrtOfEither(a, p);
    OppositeRoot(r, p);
  }

  /** The right-hand side as computed is that of the equation. */
  lemma EquationHolds(c: Curve, q: Point)
    requires c.p > 0
    ensures c.Satisfies(q) <==> SquareIs(q.y, c.Rhs(q.x), c.p)
  {
    var full := q.x * q.x * q.x - 3 * q.x + c.b;
    assert (q.x * q.x - 3) * q.x + c.b == full;
    CongMod(full, c.p);
    if c.Satisfies(q) {
      CongSym(full % c.p, full, c.p);
      CongTrans(q.y * q.y, full, full % c.p, c.p);
    }
    if SquareIs(q.y, c.Rhs(q.x), c.p) {
      CongTrans(q.y * q.y, full % c.p, full, c.p);
    }
  }

  /** The compressed form on the wire: 2 or 3 by the parity of y, then x as a big-endian number. */
  lemma CompressedForm(c: Curve, q: Point)
    requires c.Valid() && q.x < c.p
    ensures var data := EncodePoint(c, q);
      && |data| == 1 + c.ByteLen() && BigEndian(data[1..]) == q.x
      && (q.y % 2 == 0 ==> data[0] == 2) && (q.y % 2 == 1 ==> data[0] == 3)
  {
    CoordinateFits(c);
    FixedBytesValue(q.x, c.ByteLen());
    assert EncodePoint(c, q)[1..] == FixedBytes(q.x, c.ByteLen());
  }

  /** Every point of the curve survives compression. */
  lemma CurvePointRoundTrip(c: Curve, q: Point)
    requires c.Valid() && c.OnCurve(q)
    ensures DecodePoint(c, EncodePoint(c, q)) == Some(q)
  {
    EquationHolds(c, q);
    DecodeEncode(c, q);
  }

  lemma ParityKept(r: nat, header: int, p: nat)
    requires r <= p && p % 4 == 3 && (header == 2 || header == 3)
    ensures 2 + PickRoot(r, header % 2, p) % 2 == header
  {
    // p is odd, so r and p - r differ in parity
    RemainderOfTwo(p - r, 2 * (p / 4) + 1 - r / 2, 1 - r % 2);
  }

  lemma RemainderOfTwo(x: int, k: int, b: int)
    requires x == 2 * k + b && 0 <= b < 2
    ensures x % 2 == b
  {
  }

  /** Every compressed form is reproduced, whether or not its x belongs to the curve. */
  lemma EncodeDecode(c: Curve, data: Bytes)
    requires c.Valid() && IsCompressed(c, data)
    ensures EncodePoint(c, DecodePoint(c, data).value) == data
  {
    BigEndianBytes(data[1..]);
    var q := DecodePoint(c, data).value;
    ParityKept(Sqrt(c.Rhs(q.x), c.p), data[0], c.p);
    assert data == [data[0]] + data[1..];
  }

  /** Unmarshal never checks that what it returns satisfies the equation: it does exactly when
      the right-hand side at x is a square. */
  lemma DecodedOnCurve(c: Curve, data: Bytes)
    requires c.Valid() && IsCompressed(c, data)
    ensures var q := DecodePoint(c, data).value;
      && (SquareIs(q.y, c.Rhs(q.x), c.p) <==> IsSquare(c.Rhs(q.x), c.p))
      && (c.Satisfies(q) <==> IsSquare(c.Rhs(q.x), c.p))
  {
    var q := DecodePoint(c, data).value;
    EquationHolds(c, q);
    var a := c.Rhs(q.x);
    SqrtCorrect(a, c.p);
    OppositeRoot(Sqrt(a, c.p), c.p);
  }
}
