/** Numbers as byte sequences, most significant byte first and least significant byte first. */
module Endian {
  import opened Bytes

  /** The number whose base-256 digits, most significant first, are `s`. */
  function BigEndian(s: seq<byte>): nat {
    if s == [] then 0 else 256 * BigEndian(s[..|s| - 1]) + s[|s| - 1]
  }

  function Pow256(n: nat): nat {
    if n == 0 then 1 else 256 * Pow256(n - 1)
  }

  lemma {:induction false} BigEndianBound(s: seq<byte>)
    requires s != []
    ensures BigEndian(s) < (s[0] + 1) * Pow256(|s| - 1)
  {
    if |s| > 1 {
      var t := s[..|s| - 1];
      BigEndianBound(t);
      assert t[0] == s[0];
      assert BigEndian(t) + 1 <= (s[0] + 1) * Pow256(|s| - 2);
      assert 256 * ((s[0] + 1) * Pow256(|s| - 2)) == (s[0] + 1) * Pow256(|s| - 1);
    } else {
      assert s[..0] == [];
    }
  }

  function ToBigEndian(n: nat, len: nat): (s: seq<byte>)
    ensures |s| == len
  {
    if len == 0 then [] else ToBigEndian(n / 256, len - 1) + [n % 256]
  }

  lemma {:induction false} BigEndianRoundTrip(n: nat, len: nat)
    requires n < Pow256(len)
    ensures BigEndian(ToBigEndian(n, len)) == n
  {
    if len > 0 {
      BigEndianRoundTrip(n / 256, len - 1);
      var s := ToBigEndian(n, len);
      assert s[..|s| - 1] == ToBigEndian(n / 256, len - 1);
    }
  }

  lemma BigEndianTwo(a: byte, b: byte)
    ensures BigEndian([a, b]) == 256 * a + b
  {
    assert [a, b][..1] == [a] && BigEndian([a]) == 256 * BigEndian([]) + a;
  }

  lemma BigEndianFour(a: byte, b: byte, c: byte, d: byte)
    ensures BigEndian([a, b, c, d]) == 0x100_0000 * a + 0x1_0000 * b + 256 * c + d
  {
    assert [a, b, c, d][..3] == [a, b, c] && [a, b, c][..2] == [a, b];
    BigEndianTwo(a, b);
  }

  lemma DivDiv(n: nat)
    ensures n / 256 / 256 == n / 0x1_0000
    ensures n / 256 / 0x1_0000 == n / 0x100_0000
    ensures n / 256 / 0x100_0000 == n / 0x1_0000_0000
  {
  }

  lemma ToBigEndianTwo(n: nat)
    ensures ToBigEndian(n, 2) == [n / 256 % 256, n % 256]
  {
    assert ToBigEndian(n / 256, 1) == [n / 256 % 256];
  }

  lemma ToBigEndianFour(n: nat)
    ensures ToBigEndian(n, 4) == [n / 0x100_0000 % 256, n / 0x1_0000 % 256, n / 256 % 256, n % 256]
  {
    DivDiv(n);
    DivDiv(n / 256);
    assert ToBigEndian(n, 4) == ToBigEndian(n / 256 / 256, 2) + [n / 256 % 256] + [n % 256];
    assert ToBigEndian(n / 256 / 256, 2) == [n / 256 / 256 / 256 % 256] + [n / 256 / 256 % 256];
  }

  lemma {:induction false} ToBigEndianSplit(n: nat, k: nat)
    ensures ToBigEndian(n, k + 4) == ToBigEndian(n / 0x1_0000_0000, k) + ToBigEndian(n, 4)
  {
    DivDiv(n);
    DivDiv(n / 256);
    var m := n / 256;
    assert n / 0x1_0000_0000 == m / 256 / 256 / 256;
    assert ToBigEndian(n, k + 4) == ToBigEndian(m, k + 3) + [n % 256];
    assert ToBigEndian(m, k + 3) == ToBigEndian(m / 256, k + 2) + [m % 256];
    assert ToBigEndian(m / 256, k + 2) == ToBigEndian(m / 256 / 256, k + 1) + [m / 256 % 256];
    assert ToBigEndian(m / 256 / 256, k + 1) == ToBigEndian(m / 256 / 256 / 256, k) + [m / 256 / 256 % 256];
    ToBigEndianFour(n);
  }

  lemma DivLarge(n: nat)
    ensures n / 0x1_0000_0000 / 0x100_0000 == n / 0x100_0000_0000_0000
    ensures n / 0x1_0000_0000 / 0x1_0000 == n / 0x1_0000_0000_0000
    ensures n / 0x1_0000_0000 / 256 == n / 0x100_0000_0000
  {
  }

  lemma EightBytes(n: nat)
    ensures ToBigEndian(n, 8) ==
            [n / 0x100_0000_0000_0000 % 256, n / 0x1_0000_0000_0000 % 256,
             n / 0x100_0000_0000 % 256, n / 0x1_0000_0000 % 256,
             n / 0x100_0000 % 256, n / 0x1_0000 % 256, n / 256 % 256, n % 256]
  {
    ToBigEndianSplit(n, 4);
    ToBigEndianFour(n);
    ToBigEndianFour(n / 0x1_0000_0000);
    DivLarge(n);
  }

  // Least significant byte first

  function LittleEndian(s: seq<byte>): nat {
    if s == [] then 0 else s[0] + 256 * LittleEndian(s[1..])
  }

  function ToLittleEndian(n: nat, len: nat): (s: seq<byte>)
    ensures |s| == len
  {
    if len == 0 then [] else [n % 256] + ToLittleEndian(n / 256, len - 1)
  }

  lemma {:induction false} LittleEndianValue(n: nat, len: nat)
    requires n < Pow256(len)
    ensures LittleEndian(ToLittleEndian(n, len)) == n
  {
    if len > 0 {
      LittleEndianValue(n / 256, len - 1);
      assert ToLittleEndian(n, len)[1..] == ToLittleEndian(n / 256, len - 1);
    }
  }

  lemma {:induction false} LittleEndianBound(s: seq<byte>)
    ensures LittleEndian(s) < Pow256(|s|)
  {
    if s != [] {
      LittleEndianBound(s[1..]);
    }
  }

  lemma {:induction false} Pow256Grows(a: nat, b: nat)
    requires a <= b
    ensures Pow256(a) <= Pow256(b)
    decreases b
  {
    if a < b {
      Pow256Grows(a, b - 1);
    }
  }
}
