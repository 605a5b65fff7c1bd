/** storage/utils.go: identifiers, little-endian byte strings of DStoreIDSize bytes, under the XOR
    distance. */
module XorMetric {
  import opened Basics
  import opened NumberTheory

  const DSTORE_ID_SIZE := 8

  type Octets = seq<bv8>

  type ID = s: Octets | |s| == DSTORE_ID_SIZE witness [0, 0, 0, 0, 0, 0, 0, 0]

  function Value(x: bv8): (v: nat)
    ensures v < 256
  {
    x as int
  }

  /** The number a little-endian byte string stands for. */
  function Number(a: Octets): nat {
    if a == [] then 0 else Value(a[0]) + 256 * Number(a[1..])
  }

  function XorByte(x: bv8, y: bv8): bv8 {
    x ^ y
  }

  function Xor(a: Octets, b: Octets): (c: Octets)
    requires |a| == |b|
    ensures |c| == |a|
  {
    seq(|a|, i requires 0 <= i < |a| => XorByte(a[i], b[i]))
  }

  function Dist(a: Octets, b: Octets): nat
    requires |a| == |b|
  {
    Number(Xor(a, b))
  }

  /** The key by which everything is sorted. */
  function Order(target: ID): ID -> nat {
    (id: ID) => Dist(target, id)
  }

  function GetBit(bytes: Octets, index: nat): bv8
    requires index < 8 * |bytes|
  {
    (bytes[index / 8] >> (index % 8)) & 1
  }

  // ---- single bytes ----

  function Digit(x: bv8, j: nat): nat
    requires j < 8
  {
    if (x >> j) & 1 == 1 then 1 else 0
  }

  function Digits(x: bv8): nat {
    Digit(x, 0) + 2 * Digit(x, 1) + 4 * Digit(x, 2) + 8 * Digit(x, 3)
    + 16 * Digit(x, 4) + 32 * Digit(x, 5) + 64 * Digit(x, 6) + 128 * Digit(x, 7)
  }

  lemma ByteDigits(x: bv8)
    ensures Value(x) == Digits(x)
  {
  }

  lemma XorBit(x: bv8, y: bv8, j: nat)
    requires j < 8
    ensures ((x ^ y) >> j) & 1 == ((x >> j) & 1) ^ ((y >> j) & 1)
  {
  }

  lemma OneBit(u: bv8, v: bv8)
    requires u <= 1 && v <= 1
    ensures u ^ v == if u == v then 0 else 1
  {
  }

  lemma XorDigit(x: bv8, y: bv8, j: nat)
    requires j < 8
    ensures (XorByte(x, y) >> j) & 1 == if (x >> j) & 1 == (y >> j) & 1 then 0 else 1
    ensures Digit(XorByte(x, y), j) == if Digit(x, j) == Digit(y, j) then 0 else 1
  {
    XorBit(x, y, j);
    OneBit((x >> j) & 1, (y >> j) & 1);
  }

  lemma ByteOrder(x: bv8, y: bv8)
    ensures x < y <==> Value(x) < Value(y)
  {
  }

  lemma XorAtMostSum(u: bv8, v: bv8)
    ensures Value(XorByte(u, v)) <= Value(u) + Value(v)
  {
    hide Digit, Value, XorByte;
    ByteDigits(u);
    ByteDigits(v);
    ByteDigits(XorByte(u, v));
    DigitsAtMostSum(XorByte(u, v), u, v) by {
      forall j: nat | j < 8 ensures Digit(XorByte(u, v), j) <= Digit(u, j) + Digit(v, j) {
        XorDigit(u, v, j);
      }
    }
  }

  lemma DigitsAtMostSum(w: bv8, u: bv8, v: bv8)
    requires forall j: nat :: j < 8 ==> Digit(w, j) <= Digit(u, j) + Digit(v, j)
    ensures Digits(w) <= Digits(u) + Digits(v)
  {
    hide Digit;
  }

  lemma ByteTriangle(x: bv8, y: bv8, z: bv8)
    ensures Value(XorByte(x, z)) <= Value(XorByte(x, y)) + Value(XorByte(y, z))
  {
    hide Value;
    assert XorByte(XorByte(x, y), XorByte(y, z)) == XorByte(x, z);
    XorAtMostSum(XorByte(x, y), XorByte(y, z));
  }

  // ---- Compare ----

  function Sign(x: int, y: int): int {
    if x < y then -1 else if x > y then 1 else 0
  }

  lemma {:induction false} NumberBound(a: Octets)
    ensures Number(a) < Pow(256, |a|)
  {
    if a != [] { NumberBound(a[1..]); }
  }

  lemma NumberCons(a: Octets)
    requires a != []
    ensures Number(a) == Value(a[0]) + 256 * Number(a[1..])
  {
  }

  /** The highest differing byte decides. */
  lemma {:induction false} HighestByteDecides(a: Octets, b: Octets, i: nat)
    requires |a| == |b| && i < |a| && a[i] < b[i] && a[i + 1..] == b[i + 1..]
    ensures Number(a) < Number(b)
  {
    hide Value, Number;
    NumberCons(a);
    NumberCons(b);
    if i == 0 {
      ByteOrder(a[0], b[0]);
    } else {
      assert a[1..][i..] == a[i + 1..] && b[1..][i..] == b[i + 1..];
      HighestByteDecides(a[1..], b[1..], i - 1);
    }
  }

  method Compare(a: Octets, b: Octets) returns (r: int)
    ensures r == if |a| != |b| then 0 else Sign(Number(a), Number(b))
    ensures |a| == |b| ==> (r < 0 <==> Number(a) < Number(b)) && (r > 0 <==> Number(a) > Number(b))
    ensures |a| == |b| ==> (r == 0 <==> a == b)
  {
    if |a| != |b| {
      return 0;
    }
    var i := |a|;
    while i > 0
      invariant 0 <= i <= |a| && a[i..] == b[i..]
    {
      i := i - 1;
      if a[i] < b[i] {
        HighestByteDecides(a, b, i);
        return -1;
      }
      if a[i] > b[i] {
        HighestByteDecides(b, a, i);
        return 1;
      }
      assert a[i..] == [a[i]] + a[i + 1..] && b[i..] == [b[i]] + b[i + 1..];
    }
    assert a == a[0..] && b == b[0..];
    return 0;
  }

  // ---- XorDistance ----

  /** None stands for the nil the code returns on a wrong length. */
  method XorDistance(a: Octets, b: Octets) returns (r: Option<Octets>)
    ensures r == if |a| != DSTORE_ID_SIZE || |b| != DSTORE_ID_SIZE then None else Some(Xor(a, b))
  {
    if |a| != DSTORE_ID_SIZE || |b| != DSTORE_ID_SIZE {
      return None;
    }
    var c := new bv8[DSTORE_ID_SIZE](_ => 0);
    for i := 0 to |a|
      invariant forall k :: 0 <= k < i ==> c[k] == a[k] ^ b[k]
    {
      c[i] := a[i] ^ b[i];
    }
    assert c[..] == Xor(a, b);
    return Some(c[..]);
  }

  lemma SameValue(x: bv8, y: bv8)
    requires Value(x) == Value(y)
    ensures x == y
  {
    hide Value;
    ByteOrder(x, y);
    ByteOrder(y, x);
  }

  lemma {:induction false} NumberInjective(a: Octets, b: Octets)
    requires |a| == |b| && Number(a) == Number(b)
    ensures a == b
  {
    hide Value, Number;
    if a != [] {
      NumberCons(a);
      NumberCons(b);
      SameValue(a[0], b[0]);
      NumberInjective(a[1..], b[1..]);
      assert a == [a[0]] + a[1..] && b == [b[0]] + b[1..];
    }
  }

  lemma {:induction false} XorTail(a: Octets, b: Octets)
    requires |a| == |b| && a != []
    ensures Xor(a, b)[0] == XorByte(a[0], b[0]) && Xor(a, b)[1..] == Xor(a[1..], b[1..])
  {
  }

  lemma {:induction false} Triangle(a: Octets, b: Octets, c: Octets)
    requires |a| == |b| == |c|
    ensures Dist(a, c) <= Dist(a, b) + Dist(b, c)
  {
    hide Dist;
    if a == [] {
      assert a == c && b == c;
      DistSelf(c);
    } else {
      Triangle(a[1..], b[1..], c[1..]);
      TriangleStep(a, b, c);
    }
  }

  lemma TriangleStep(a: Octets, b: Octets, c: Octets)
    requires |a| == |b| == |c| && a != []
    requires Dist(a[1..], c[1..]) <= Dist(a[1..], b[1..]) + Dist(b[1..], c[1..])
    ensures Dist(a, c) <= Dist(a, b) + Dist(b, c)
  {
    hide Dist, Value, XorByte;
    DistCons(a, b);
    DistCons(b, c);
    DistCons(a, c);
    ByteTriangle(a[0], b[0], c[0]);
  }

  lemma DistSelf(a: Octets)
    ensures Dist(a, a) == 0
  {
    ZeroNumber(|a|);
    assert Xor(a, a) == seq(|a|, _ => 0);
  }

  lemma DistCons(a: Octets, b: Octets)
    requires |a| == |b| && a != []
    ensures Dist(a, b) == Value(XorByte(a[0], b[0])) + 256 * Dist(a[1..], b[1..])
  {
    hide Value, Xor, XorByte;
    XorTail(a, b);
  }

  lemma Symmetric(a: Octets, b: Octets)
    requires |a| == |b|
    ensures Dist(a, b) == Dist(b, a)
  {
    assert Xor(a, b) == Xor(b, a);
  }

  lemma {:induction false} ZeroNumber(n: nat)
    ensures Number(seq(n, _ => 0)) == 0
  {
    if n > 0 {
      assert seq(n, _ => 0 as bv8)[1..] == seq(n - 1, _ => 0);
      ZeroNumber(n - 1);
    }
  }

  /** From a given point, different identifiers lie at different distances; the only one at
      distance zero is the point itself. */
  lemma DistInjective(t: Octets, a: Octets, b: Octets)
    requires |t| == |a| == |b|
    ensures Dist(t, a) == Dist(t, b) <==> a == b
    ensures Dist(t, a) == 0 <==> t == a
  {
    if Dist(t, a) == Dist(t, b) {
      NumberInjective(Xor(t, a), Xor(t, b));
      forall i | 0 <= i < |t| ensures a[i] == b[i] {
        assert Xor(t, a)[i] ^ t[i] == a[i] && Xor(t, b)[i] ^ t[i] == b[i];
      }
      assert a == b;
    }
    ZeroNumber(|t|);
    if t == a {
      DistSelf(a);
    } else if Dist(t, a) == 0 {
      NumberInjective(Xor(t, a), seq(|t|, _ => 0));
      forall i | 0 <= i < |t| ensures t[i] == a[i] {
        assert Xor(t, a)[i] == 0;
      }
    }
  }

  // ---- prefixes ----

  /** a and b agree on bits n and above. */
  ghost predicate AgreeFrom(a: Octets, b: Octets, n: nat)
    requires |a| == |b|
  {
    forall k :: n <= k < 8 * |a| ==> GetBit(a, k) == GetBit(b, k)
  }

  /** n is the length of the longest common prefix, counted from the most significant bit. */
  ghost predicate IsPrefixLen(a: Octets, b: Octets, n: nat)
    requires |a| == |b|
  {
    && n <= 8 * |a|
    && AgreeFrom(a, b, 8 * |a| - n)
    && (n < 8 * |a| ==> GetBit(a, 8 * |a| - n - 1) != GetBit(b, 8 * |a| - n - 1))
  }

  method MaxPrefixLen(id: Octets, target: Octets) returns (res: int)
    ensures |id| != DSTORE_ID_SIZE || |target| != DSTORE_ID_SIZE ==> res == -1
    ensures |id| == |target| == DSTORE_ID_SIZE ==> 0 <= res && IsPrefixLen(id, target, res)
  {
    if |target| != DSTORE_ID_SIZE || |id| != DSTORE_ID_SIZE {
      return -1;
    }
    res := 0;
    var i := DSTORE_ID_SIZE * 8 - 1;
    while i >= 0
      invariant -1 <= i && res == 63 - i
      invariant AgreeFrom(id, target, i + 1)
    {
      if GetBit(id, i) != GetBit(target, i) {
        break;
      }
      res := res + 1;
      i := i - 1;
    }
  }

  lemma BitOfXor(a: Octets, b: Octets, k: nat)
    requires |a| == |b| && k < 8 * |a|
    ensures GetBit(Xor(a, b), k) == if GetBit(a, k) == GetBit(b, k) then 0 else 1
  {
    XorDigit(a[k / 8], b[k / 8], k % 8);
  }

  lemma DigitRange(x: bv8)
    ensures forall j: nat :: j < 8 ==> Digit(x, j) <= 1
  {
  }

  lemma SmallByte(x: bv8, k: nat)
    requires k < 8
    ensures Digit(x, k) == 1 ==> Value(x) >= Pow(2, k)
    ensures (forall j: nat :: k <= j < 8 ==> Digit(x, j) == 0) ==> Value(x) < Pow(2, k)
  {
    hide Digit, Value;
    ByteDigits(x);
    assert forall j: nat :: j < 8 ==> Digit(x, j) <= 1 by { DigitRange(x); }
    assert k == 0 || k == 1 || k == 2 || k == 3 || k == 4 || k == 5 || k == 6 || k == 7;
    assert Pow(2, 1) == 2 && Pow(2, 2) == 4 && Pow(2, 3) == 8 && Pow(2, 4) == 16;
    assert Pow(2, 5) == 32 && Pow(2, 6) == 64 && Pow(2, 7) == 128;
  }

  lemma TailBit(a: Octets, k: nat)
    requires 8 <= k < 8 * |a|
    ensures GetBit(a, k) == GetBit(a[1..], k - 8)
  {
    assert k / 8 - 1 == (k - 8) / 8 && k % 8 == (k - 8) % 8;
  }

  lemma PowerByte(k: nat)
    requires k >= 8
    ensures Pow(2, k) == 256 * Pow(2, k - 8)
  {
    var p := Pow(2, k - 8);
    assert Pow(2, k - 7) == 2 * p && Pow(2, k - 6) == 4 * p && Pow(2, k - 5) == 8 * p;
    assert Pow(2, k - 4) == 16 * p && Pow(2, k - 3) == 32 * p && Pow(2, k - 2) == 64 * p;
    assert Pow(2, k - 1) == 128 * p;
  }

  /** A set bit bounds the number from below. */
  lemma {:induction false} BitIsLarge(a: Octets, k: nat)
    requires k < 8 * |a| && GetBit(a, k) == 1
    ensures Number(a) >= Pow(2, k)
    decreases |a|
  {
    if k < 8 {
      SmallByte(a[0], k);
    } else {
      TailBit(a, k);
      BitIsLarge(a[1..], k - 8);
      PowerByte(k);
    }
  }

  /** Clear high bits bound it from above. */
  lemma {:induction false} ClearIsSmall(a: Octets, k: nat)
    requires k < 8 * |a| && forall j :: k <= j < 8 * |a| ==> GetBit(a, j) == 0
    ensures Number(a) < Pow(2, k)
    decreases |a|
  {
    forall j: nat | j < 8 * |a[1..]| ensures GetBit(a[1..], j) == GetBit(a, j + 8) { TailBit(a, j + 8); }
    if k < 8 {
      forall j: nat | k <= j < 8 ensures Digit(a[0], j) == 0 { assert GetBit(a, j) == 0; }
      SmallByte(a[0], k);
      ZeroBits(a[1..]);
    } else {
      ClearIsSmall(a[1..], k - 8);
      PowerByte(k);
    }
  }

  lemma {:induction false} ZeroBits(a: Octets)
    requires forall j :: 0 <= j < 8 * |a| ==> GetBit(a, j) == 0
    ensures Number(a) == 0
  {
    if a != [] {
      forall j: nat | j < 8 * |a[1..]| ensures GetBit(a[1..], j) == GetBit(a, j + 8) { TailBit(a, j + 8); }
      forall j: nat | j < 8 ensures Digit(a[0], j) == 0 { assert GetBit(a, j) == 0; }
      ByteDigits(a[0]);
      ZeroBits(a[1..]);
    }
  }

  /** A longer common prefix with the target means strictly closer. */
  lemma LongerPrefixCloser(t: Octets, a: Octets, b: Octets, m: nat, n: nat)
    requires |t| == |a| == |b| && IsPrefixLen(a, t, m) && IsPrefixLen(b, t, n) && m > n
    ensures Dist(t, a) < Dist(t, b)
  {
    var k := 8 * |t| - n - 1;
    BitOfXor(t, b, k);
    BitIsLarge(Xor(t, b), k);
    forall j | k <= j < 8 * |t| ensures GetBit(Xor(t, a), j) == 0 {
      BitOfXor(t, a, j);
    }
    ClearIsSmall(Xor(t, a), k);
  }

  // ---- SetPrefix ----

  /** A byte whose n most significant bits are set. */
  function TopBits(n: nat): bv8
    requires n < 8
  {
    if n == 0 then 0 else TopBits(n - 1) | (1 << (8 - n))
  }

  lemma TopBitsDigits(n: nat, j: nat)
    requires n < 8 && j < 8
    ensures (TopBits(n) >> j) & 1 == if j >= 8 - n then 1 else 0
  {
    assert n == 0 || n == 1 || n == 2 || n == 3 || n == 4 || n == 5 || n == 6 || n == 7;
    assert TopBits(1) == 0x80 && TopBits(2) == 0xc0 && TopBits(3) == 0xe0;
    assert TopBits(4) == 0xf0 && TopBits(5) == 0xf8 && TopBits(6) == 0xfc && TopBits(7) == 0xfe;
  }

  function Blended(x: bv8, y: bv8, mask: bv8): bv8 {
    (x & !mask) | (mask & y)
  }

  lemma NotBit(x: bv8, j: nat)
    requires j < 8
    ensures ((!x) >> j) & 1 == 1 - ((x >> j) & 1)
  {
  }

  lemma AndBit(x: bv8, y: bv8, j: nat)
    requires j < 8
    ensures ((x & y) >> j) & 1 == ((x >> j) & 1) & ((y >> j) & 1)
  {
  }

  lemma OrBit(x: bv8, y: bv8, j: nat)
    requires j < 8
    ensures ((x | y) >> j) & 1 == ((x >> j) & 1) | ((y >> j) & 1)
  {
  }

  lemma BlendedBit(x: bv8, y: bv8, mask: bv8, j: nat)
    requires j < 8
    ensures (Blended(x, y, mask) >> j) & 1 == if (mask >> j) & 1 == 1 then (y >> j) & 1 else (x >> j) & 1
  {
    NotBit(mask, j);
    AndBit(x, !mask, j);
    AndBit(mask, y, j);
    OrBit(x & !mask, mask & y, j);
  }

  /** Bit k of bytes after its n most significant bits are taken from pref. */
  function Prefixed(bytes: Octets, pref: Octets, n: int, k: nat): bv8
    requires |bytes| <= |pref| && k < 8 * |bytes|
  {
    if k >= 8 * |bytes| - n then GetBit(pref, k) else GetBit(bytes, k)
  }

  /** The mask loop of SetPrefix. */
  method PrefixMask(prefLen: nat) returns (mask: bv8)
    requires prefLen < 8
    ensures mask == TopBits(prefLen)
  {
    mask := 0;
    for j := 0 to prefLen
      invariant mask == TopBits(j)
    {
      mask := mask | (1 << (7 - j));
    }
  }

  method SetPrefix(bytes: array<bv8>, pref: Octets, prefLen: int)
    requires bytes.Length <= |pref|
    modifies bytes
    ensures forall k :: 0 <= k < 8 * bytes.Length ==>
      GetBit(bytes[..], k) == Prefixed(old(bytes[..]), pref, prefLen, k)
  {
    hide GetBit, Prefixed, TopBits;
    var left := prefLen;
    var i := bytes.Length - 1;
    while i >= 0
      invariant -1 <= i < bytes.Length
      invariant left == prefLen - 8 * (bytes.Length - 1 - i)
      invariant i < bytes.Length - 1 ==> left >= 0
      invariant forall k :: 0 <= k <= i ==> bytes[k] == old(bytes[k])
      invariant forall k :: i < k < bytes.Length ==> bytes[k] == pref[k]
    {
      if left >= 8 {
        bytes[i] := pref[i];
        left := left - 8;
      } else {
        var mask := PrefixMask(Clip(left));
        bytes[i] := bytes[i] & !mask;
        bytes[i] := bytes[i] | (mask & pref[i]);
        PrefixDone(old(bytes[..]), bytes[..], pref, prefLen, i, Clip(left));
        return;
      }
      i := i - 1;
    }
    PrefixAll(old(bytes[..]), bytes[..], pref, prefLen);
  }

  /** Every byte copied. */
  lemma PrefixAll(before: Octets, after: Octets, pref: Octets, prefLen: int)
    requires |before| == |after| <= |pref| && (after != [] ==> prefLen >= 8 * |after|)
    requires forall k :: 0 <= k < |after| ==> after[k] == pref[k]
    ensures forall k :: 0 <= k < 8 * |after| ==> GetBit(after, k) == Prefixed(before, pref, prefLen, k)
  {
  }

  function Clip(n: int): (r: nat)
    ensures n < 8 ==> r < 8
  {
    if n < 0 then 0 else n
  }

  /** All bytes above i copied, byte i blended, those below untouched. */
  lemma PrefixDone(before: Octets, after: Octets, pref: Octets, prefLen: int, i: nat, n: nat)
    requires |before| == |after| <= |pref| && i < |after| && n < 8
    requires var left := prefLen - 8 * (|after| - 1 - i); left < 8 && n == Clip(left) && (i < |after| - 1 ==> left >= 0)
    requires forall k :: 0 <= k < i ==> after[k] == before[k]
    requires forall k :: i < k < |after| ==> after[k] == pref[k]
    requires after[i] == Blended(before[i], pref[i], TopBits(n))
    ensures forall k :: 0 <= k < 8 * |after| ==> GetBit(after, k) == Prefixed(before, pref, prefLen, k)
  {
    hide TopBits, Blended, GetBit, Prefixed;
    forall k: nat | k < 8 * |after| ensures GetBit(after, k) == Prefixed(before, pref, prefLen, k) {
      if k / 8 == i {
        BlendedAt(before, after, pref, i, n, k);
        ClippedPrefix(before, after, pref, prefLen, i, n, k);
      } else {
        CopiedAt(before, after, pref, prefLen, i, k);
      }
    }
  }

  lemma BlendedAt(before: Octets, after: Octets, pref: Octets, i: nat, n: nat, k: nat)
    requires |before| == |after| <= |pref| && i < |after| && n < 8 && k < 8 * |after| && k / 8 == i
    requires after[i] == Blended(before[i], pref[i], TopBits(n))
    ensures GetBit(after, k) == Prefixed(before, pref, 8 * (|after| - 1 - i) + n, k)
  {
    hide TopBits, Blended;
    TopBitsDigits(n, k % 8);
    BlendedBit(before[i], pref[i], TopBits(n), k % 8);
  }

  /** A negative rest of the prefix, possible only in the top byte, sets nothing. */
  lemma ClippedPrefix(before: Octets, after: Octets, pref: Octets, prefLen: int, i: nat, n: nat, k: nat)
    requires |before| == |after| <= |pref| && i < |after| && k < 8 * |after| && k / 8 == i
    requires var left := prefLen - 8 * (|after| - 1 - i); n == Clip(left) && (i < |after| - 1 ==> left >= 0)
    ensures Prefixed(before, pref, 8 * (|after| - 1 - i) + n, k) == Prefixed(before, pref, prefLen, k)
  {
  }

  lemma CopiedAt(before: Octets, after: Octets, pref: Octets, prefLen: int, i: nat, k: nat)
    requires |before| == |after| <= |pref| && i < |after| && k < 8 * |after| && k / 8 != i
    requires var left := prefLen - 8 * (|after| - 1 - i); left < 8 && (i < |after| - 1 ==> left >= 0)
    requires forall k :: 0 <= k < i ==> after[k] == before[k]
    requires forall k :: i < k < |after| ==> after[k] == pref[k]
    ensures GetBit(after, k) == Prefixed(before, pref, prefLen, k)
  {
    if k / 8 > i {
      assert k >= 8 * (i + 1);
    }
  }

  /** After SetPrefix the two agree on at least the bits asked for, and the others are as before. */
  lemma PrefixReached(before: Octets, after: Octets, pref: Octets, n: int, m: nat)
    requires |before| == |after| == |pref| && IsPrefixLen(after, pref, m)
    requires forall k :: 0 <= k < 8 * |after| ==> GetBit(after, k) == Prefixed(before, pref, n, k)
    ensures n <= 8 * |after| ==> m >= n
    ensures n > 8 * |after| ==> m == 8 * |after|
    ensures forall k :: 0 <= k < 8 * |after| - n && k < 8 * |after| ==> GetBit(after, k) == GetBit(before, k)
  {
    if m < 8 * |after| {
      var k := 8 * |after| - m - 1;
      assert GetBit(after, k) != GetBit(pref, k);
    }
  }
}
