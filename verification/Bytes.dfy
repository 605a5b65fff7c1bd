/** Byte strings and the two integer encodings the Signal code uses. */
module Bytes {
  import opened NumberTheory

  type byte = b: int | 0 <= b < 256

  type Bytes = seq<byte>

  /** Reads s as an unsigned big-endian number. */
  function BigEndian(s: Bytes): nat {
    if s == [] then 0 else BigEndian(s[..|s| - 1]) * 256 + s[|s| - 1]
  }

  /** Writes v on exactly n big-endian bytes. */
  function FixedBytes(v: nat, n: nat): (s: Bytes)
    ensures |s| == n
  {
    if n == 0 then [] else FixedBytes(v / 256, n - 1) + [v % 256]
  }

  /** Writes v on as few big-endian bytes as possible. */
  function MinimalBytes(v: nat): Bytes {
    if v == 0 then [] else MinimalBytes(v / 256) + [v % 256]
  }

  function Zeros(n: nat): Bytes {
    Repeat(0, n)
  }

  lemma {:induction false} PowPositive(b: int, n: nat)
    requires b > 0
    ensures Pow(b, n) > 0
  {
    if n > 0 {
      PowPositive(b, n - 1);
      assert b * Pow(b, n - 1) > 0;
    }
  }

  lemma DivBound(v: nat, n: nat)
    requires n > 0 && v < Pow(256, n)
    ensures v / 256 < Pow(256, n - 1)
  {
  }

  /** Left-padding the minimal encoding gives the fixed-length one. */
  lemma {:induction false} PaddedMinimal(v: nat, n: nat)
    requires v < Pow(256, n)
    ensures |MinimalBytes(v)| <= n
    ensures Zeros(n - |MinimalBytes(v)|) + MinimalBytes(v) == FixedBytes(v, n)
  {
    if n > 0 {
      DivBound(v, n);
      PaddedMinimal(v / 256, n - 1);
      if v == 0 {
        assert Zeros(n) == Zeros(n - 1) + [0];
      } else {
        var m := MinimalBytes(v / 256);
        assert Zeros(n - 1 - |m|) + (m + [v % 256]) == (Zeros(n - 1 - |m|) + m) + [v % 256];
      }
    }
  }

  /** Reading back a fixed-length encoding. */
  lemma {:induction false} FixedBytesValue(v: nat, n: nat)
    requires v < Pow(256, n)
    ensures BigEndian(FixedBytes(v, n)) == v
  {
    if n > 0 {
      DivBound(v, n);
      FixedBytesValue(v / 256, n - 1);
      assert FixedBytes(v, n)[..n - 1] == FixedBytes(v / 256, n - 1);
    }
  }

  /** Writing back a number read from n bytes. */
  lemma {:induction false} BigEndianBytes(s: Bytes)
    ensures BigEndian(s) < Pow(256, |s|)
    ensures FixedBytes(BigEndian(s), |s|) == s
  {
    if s != [] {
      var init, last := s[..|s| - 1], s[|s| - 1];
      BigEndianBytes(init);
      assert BigEndian(s) / 256 == BigEndian(init) && BigEndian(s) % 256 == last;
      assert s == init + [last];
    }
  }

  /** Writes v on n little-endian bytes, dropping what does not fit. */
  function LittleEndian(v: nat, n: nat): (s: Bytes)
    ensures |s| == n
  {
    if n == 0 then [] else [v % 256] + LittleEndian(v / 256, n - 1)
  }

  lemma {:induction false} LittleEndianInjective(v: nat, w: nat, n: nat)
    requires LittleEndian(v, n) == LittleEndian(w, n)
    requires v < Pow(256, n) && w < Pow(256, n)
    ensures v == w
    decreases n
  {
    if n > 0 {
      var lv, lw := LittleEndian(v, n), LittleEndian(w, n);
      assert lv[0] == v % 256 && lw[0] == w % 256;
      assert lv[1..] == LittleEndian(v / 256, n - 1) && lw[1..] == LittleEndian(w / 256, n - 1);
      DivBound(v, n);
      DivBound(w, n);
      LittleEndianInjective(v / 256, w / 256, n - 1);
    }
  }

  function Repeat(b: byte, n: nat): Bytes {
    seq(n, _ => b)
  }
}
