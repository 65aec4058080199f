/** Multi-byte values in memory: memcpy of a uint64_t on a little-endian host. */
module Words {
  type byte = x: int | 0 <= x < 256

  /** One more than the largest value of n bytes. */
  function Capacity(n: nat): (c: nat)
    ensures c > 0
  {
    if n == 0 then 1 else 256 * Capacity(n - 1)
  }

  function Decode(s: seq<byte>): nat
  {
    if s == [] then 0 else s[0] + 256 * Decode(s[1..])
  }

  function Encode(w: nat, n: nat): (s: seq<byte>)
    ensures |s| == n
    decreases n
  {
    if n == 0 then [] else [w % 256] + Encode(w / 256, n - 1)
  }

  lemma {:induction false} DecodeEncode(w: nat, n: nat)
    requires w < Capacity(n)
    ensures Decode(Encode(w, n)) == w
    decreases n
  {
    if n > 0 {
      DecodeEncode(w / 256, n - 1);
      assert Encode(w, n)[1..] == Encode(w / 256, n - 1);
    }
  }

  lemma {:induction false} DecodeBound(s: seq<byte>)
    ensures Decode(s) < Capacity(|s|)
  {
    if s != [] {
      DecodeBound(s[1..]);
    }
  }

  lemma {:induction false} DecodeZeros(s: seq<byte>)
    requires forall i :: 0 <= i < |s| ==> s[i] == 0
    ensures Decode(s) == 0
  {
    if s != [] {
      DecodeZeros(s[1..]);
    }
  }

  /** The byte at the lowest address is the lowest one. */
  lemma LittleEndian(s: seq<byte>)
    requires |s| == 8
    ensures var b: seq<int> := s;
      Decode(s) == b[0] + 0x100 * b[1] + 0x1_0000 * b[2] + 0x100_0000 * b[3] + 0x1_0000_0000 * b[4]
                   + 0x100_0000_0000 * b[5] + 0x1_0000_0000_0000 * b[6] + 0x100_0000_0000_0000 * b[7]
  {
    DecodeFour(s);
    DecodeFour(s[4..]);
    assert s[4..][4..] == [];
  }

  lemma DecodeFour(s: seq<byte>)
    requires |s| >= 4
    ensures Decode(s) == s[0] + 0x100 * s[1] + 0x1_0000 * s[2] + 0x100_0000 * s[3] + 0x1_0000_0000 * Decode(s[4..])
  {
    assert s[1..][1..] == s[2..] && s[2..][1..] == s[3..] && s[3..][1..] == s[4..];
    assert Decode(s) == s[0] + 256 * Decode(s[1..]) && Decode(s[1..]) == s[1] + 256 * Decode(s[2..]);
    assert Decode(s[2..]) == s[2] + 256 * Decode(s[3..]) && Decode(s[3..]) == s[3] + 256 * Decode(s[4..]);
  }

  lemma Capacity8()
    ensures Capacity(8) == 0x1_0000_0000_0000_0000
  {
  }
}
