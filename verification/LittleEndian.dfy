/** Host-order (little-endian) images of unsigned integers, and arrays of them. */
module LittleEndian {
  import opened Common

  function Pow256(k: nat): (p: nat)
    ensures p >= 1
  {
    if k == 0 then 1 else 256 * Pow256(k - 1)
  }

  /** The k low-order bytes of n, least significant first. */
  function ToBytes(n: nat, k: nat): (s: seq<byte>)
    ensures |s| == k
  {
    if k == 0 then [] else [n % 256] + ToBytes(n / 256, k - 1)
  }

  function FromBytes(s: seq<byte>): (n: nat)
    ensures n < Pow256(|s|)
  {
    if s == [] then 0 else s[0] + 256 * FromBytes(s[1..])
  }

  lemma {:induction false} FromToBytes(n: nat, k: nat)
    requires n < Pow256(k)
    ensures FromBytes(ToBytes(n, k)) == n
  {
    if k > 0 {
      FromToBytes(n / 256, k - 1);
      assert ToBytes(n, k)[1..] == ToBytes(n / 256, k - 1);
    }
  }

  lemma {:induction false} ToFromBytes(s: seq<byte>)
    ensures ToBytes(FromBytes(s), |s|) == s
  {
    if s != [] {
      var rest := FromBytes(s[1..]);
      ToFromBytes(s[1..]);
      assert FromBytes(s) == 256 * rest + s[0];
      assert FromBytes(s) / 256 == rest && FromBytes(s) % 256 == s[0];
      assert s == [s[0]] + s[1..];
    }
  }

  /** Dividing by 256 and then by p is dividing by 256 p. */
  lemma DivideTwice(n: nat, p: nat)
    requires p >= 1
    ensures n / 256 / p == n / (256 * p)
  {
    var q, r := n / (256 * p), n % (256 * p);
    assert n == 256 * (p * q) + r;
    var h := r / 256;
    assert r == 256 * h + r % 256;
    assert h < p;
    assert n / 256 == p * q + h;
    assert (p * q + h) / p == q by {
      QuotientOf(p, q, h);
    }
  }

  lemma QuotientOf(p: int, q: int, h: int)
    requires 0 <= h < p
    ensures (p * q + h) / p == q
  {
    var d := (p * q + h) / p;
    OnlyMultiple(p, d - q, h - (p * q + h) % p);
  }

  /** No other multiple of p lies within p of zero. */
  lemma OnlyMultiple(p: int, k: int, m: int)
    requires p * k == m && 0 - p < m < p
    ensures k == 0
  {
  }

  /** Byte i of an image is digit i to the base 256, the lowest digit first. */
  lemma {:induction false} DigitOf(n: nat, k: nat, i: nat)
    requires i < k
    ensures ToBytes(n, k)[i] == n / Pow256(i) % 256
    decreases k
  {
    if i > 0 {
      DigitOf(n / 256, k - 1, i - 1);
      DivideTwice(n, Pow256(i - 1));
    }
  }

  function Weighted(a: nat, b: nat, c: nat, d: nat): nat {
    a + 0x100 * b + 0x1_0000 * c + 0x100_0000 * d
  }

  /** The weights of the bytes of a word: the first byte is the least significant. */
  lemma Weights(s: seq<byte>)
    ensures |s| == 4 ==> U32(s) == Weighted(s[0], s[1], s[2], s[3])
    ensures |s| == 8 ==>
              U64(s) == Weighted(s[0], s[1], s[2], s[3]) + 0x1_0000_0000 * Weighted(s[4], s[5], s[6], s[7])
  {
    if |s| == 4 {
      FourBytes(s, []);
      assert s + [] == s;
    } else if |s| == 8 {
      FourBytes(s[..4], s[4..]);
      FourBytes(s[4..], []);
      assert s[..4] + s[4..] == s && s[4..] + [] == s[4..];
    }
  }

  lemma FourBytes(s: seq<byte>, rest: seq<byte>)
    requires |s| == 4
    ensures FromBytes(s + rest) ==
            Weighted(s[0], s[1], s[2], s[3]) + 0x1_0000_0000 * FromBytes(rest)
  {
    var t := s + rest;
    assert t[1..][0] == s[1] && t[1..][1..] == t[2..] && t[2..][0] == s[2] && t[2..][1..] == t[3..];
    assert t[3..][0] == s[3] && t[3..][1..] == t[4..] == rest;
    assert FromBytes(t[3..]) == s[3] + 256 * FromBytes(rest);
    assert FromBytes(t[2..]) == s[2] + 256 * FromBytes(t[3..]);
    assert FromBytes(t[1..]) == s[1] + 256 * FromBytes(t[2..]);
  }

  lemma Widths()
    ensures Pow256(4) == 0x1_0000_0000
    ensures Pow256(8) == 0x1_0000_0000_0000_0000
  {
    assert Pow256(2) == 0x1_0000;
    assert Pow256(4) == 256 * (256 * Pow256(2));
    assert Pow256(6) == 256 * (256 * Pow256(4));
    assert Pow256(8) == 256 * (256 * Pow256(6));
  }

  function U32(s: seq<byte>): (n: uint32)
    requires |s| == 4
  {
    Widths();
    FromBytes(s)
  }

  function U64(s: seq<byte>): (n: uint64)
    requires |s| == 8
  {
    Widths();
    FromBytes(s)
  }

  lemma U32Image(n: uint32)
    ensures U32(ToBytes(n, 4)) == n
  {
    Widths();
    FromToBytes(n, 4);
  }

  lemma U64Image(n: uint64)
    ensures U64(ToBytes(n, 8)) == n
  {
    Widths();
    FromToBytes(n, 8);
  }

  function Images32(vs: seq<uint32>): (s: seq<byte>)
    ensures |s| == 4 * |vs|
  {
    if vs == [] then [] else Images32(vs[..|vs| - 1]) + ToBytes(vs[|vs| - 1], 4)
  }

  function Images64(vs: seq<uint64>): (s: seq<byte>)
    ensures |s| == 8 * |vs|
  {
    if vs == [] then [] else Images64(vs[..|vs| - 1]) + ToBytes(vs[|vs| - 1], 8)
  }

  /** The |s| / 4 whole words of s; trailing bytes are dropped. */
  function Words32(s: seq<byte>): (vs: seq<uint32>)
    ensures |vs| == |s| / 4
  {
    seq(|s| / 4, i requires 0 <= i < |s| / 4 => U32(s[4 * i..4 * i + 4]))
  }

  function Words64(s: seq<byte>): (vs: seq<uint64>)
    ensures |vs| == |s| / 8
  {
    seq(|s| / 8, i requires 0 <= i < |s| / 8 => U64(s[8 * i..8 * i + 8]))
  }

  lemma {:induction false} ImageAt32(vs: seq<uint32>, i: nat)
    requires i < |vs|
    ensures Images32(vs)[4 * i..4 * i + 4] == ToBytes(vs[i], 4)
  {
    var front := vs[..|vs| - 1];
    if i < |vs| - 1 {
      ImageAt32(front, i);
      assert Images32(vs)[4 * i..4 * i + 4] == Images32(front)[4 * i..4 * i + 4];
    }
  }

  lemma {:induction false} ImageAt64(vs: seq<uint64>, i: nat)
    requires i < |vs|
    ensures Images64(vs)[8 * i..8 * i + 8] == ToBytes(vs[i], 8)
  {
    var front := vs[..|vs| - 1];
    if i < |vs| - 1 {
      ImageAt64(front, i);
      assert Images64(vs)[8 * i..8 * i + 8] == Images64(front)[8 * i..8 * i + 8];
    }
  }

  lemma SubSlice<T>(s: seq<T>, a: nat, n: nat, b: nat, m: nat)
    requires a + n <= |s| && b + m <= n
    ensures s[a..a + n][b..b + m] == s[a + b..a + b + m]
  {
    var inner, outer := s[a..a + n][b..b + m], s[a + b..a + b + m];
    forall i | 0 <= i < m ensures inner[i] == outer[i] {
      assert s[a..a + n][b + i] == s[a + (b + i)];
    }
  }

  lemma WordsOfImages32(vs: seq<uint32>)
    ensures Words32(Images32(vs)) == vs
  {
    hide ToBytes, U32;
    forall i | 0 <= i < |vs| ensures Words32(Images32(vs))[i] == vs[i] {
      ImageAt32(vs, i);
      U32Image(vs[i]);
    }
  }

  lemma WordsOfImages64(vs: seq<uint64>)
    ensures Words64(Images64(vs)) == vs
  {
    hide ToBytes, U64;
    forall i | 0 <= i < |vs| ensures Words64(Images64(vs))[i] == vs[i] {
      ImageAt64(vs, i);
      U64Image(vs[i]);
    }
  }
}
