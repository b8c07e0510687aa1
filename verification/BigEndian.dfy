/** Multi-byte fields on the wire: most significant byte first. */
module BigEndian {
  import opened Bytes

  function B16(v: uint16): (s: seq<byte>)
    ensures |s| == 2
  {
    [v / 0x100, v % 0x100]
  }

  function B32(v: uint32): (s: seq<byte>)
    ensures |s| == 4
  {
    B16(v / 0x1_0000) + B16(v % 0x1_0000)
  }

  function B64(v: uint64): (s: seq<byte>)
    ensures |s| == 8
  {
    B32(v / 0x1_0000_0000) + B32(v % 0x1_0000_0000)
  }

  function U16(s: seq<byte>): uint16
    requires |s| >= 2
  {
    var high: int := s[0];
    high * 0x100 + s[1]
  }

  function U32(s: seq<byte>): uint32
    requires |s| >= 4
  {
    U16(s) * 0x1_0000 + U16(s[2..])
  }

  function U64(s: seq<byte>): uint64
    requires |s| >= 8
  {
    U32(s) * 0x1_0000_0000 + U32(s[4..])
  }

  /** A field is read from its own bytes alone. */
  lemma FieldPrefix(s: seq<byte>)
    ensures |s| >= 2 ==> U16(s[..2]) == U16(s)
    ensures |s| >= 4 ==> U32(s[..4]) == U32(s)
    ensures |s| >= 8 ==> U64(s[..8]) == U64(s)
  {
    if |s| >= 4 {
      assert s[..4][2..] == s[2..4] == s[2..][..2];
    }
    if |s| >= 8 {
      FieldPrefix(s[4..]);
      FieldPrefix(s[..4]);
      assert s[..8][4..] == s[4..8] == s[4..][..4];
      assert U32(s[..8]) == U32(s[..4]);
    }
  }

  lemma Read16(v: uint16, rest: seq<byte>)
    ensures U16(B16(v) + rest) == v && (B16(v) + rest)[2..] == rest
  {
  }

  lemma Read32(v: uint32, rest: seq<byte>)
    ensures U32(B32(v) + rest) == v && (B32(v) + rest)[4..] == rest
  {
    hide B16, U16;
    var lo := B16(v % 0x1_0000) + rest;
    assert B32(v) + rest == B16(v / 0x1_0000) + lo;
    Read16(v / 0x1_0000, lo);
    Read16(v % 0x1_0000, rest);
  }

  lemma Read64(v: uint64, rest: seq<byte>)
    ensures U64(B64(v) + rest) == v && (B64(v) + rest)[8..] == rest
  {
    hide B16, U16;
    var lo := B32(v % 0x1_0000_0000) + rest;
    assert B64(v) + rest == B32(v / 0x1_0000_0000) + lo;
    Read32(v / 0x1_0000_0000, lo);
    Read32(v % 0x1_0000_0000, rest);
  }

  lemma Write16(s: seq<byte>)
    requires |s| >= 2
    ensures B16(U16(s)) == s[..2]
  {
  }

  lemma Write32(s: seq<byte>)
    requires |s| >= 4
    ensures B32(U32(s)) == s[..4]
  {
    hide B16, U16;
    Write16(s);
    Write16(s[2..]);
    assert s[..4] == s[..2] + s[2..][..2];
  }

  lemma Write64(s: seq<byte>)
    requires |s| >= 8
    ensures B64(U64(s)) == s[..8]
  {
    hide B16, U16;
    Write32(s);
    Write32(s[4..]);
    assert s[..8] == s[..4] + s[4..][..4];
  }

  /** Two's complement within one, two, four or eight bytes. */
  function Neg8(i: int8): uint8 { if i < 0 then i + 0x100 else i }
  function Neg16(i: int16): uint16 { if i < 0 then i + 0x1_0000 else i }
  function Neg32(i: int32): uint32 { if i < 0 then i + 0x1_0000_0000 else i }
  function Neg64(i: int64): uint64 { if i < 0 then i + 0x1_0000_0000_0000_0000 else i }

  function Sign8(u: uint8): int8 { if u >= 0x80 then u - 0x100 else u }
  function Sign16(u: uint16): int16 { if u >= 0x8000 then u - 0x1_0000 else u }
  function Sign32(u: uint32): int32 { if u >= 0x8000_0000 then u - 0x1_0000_0000 else u }
  function Sign64(u: uint64): int64 { if u >= 0x8000_0000_0000_0000 then u - 0x1_0000_0000_0000_0000 else u }

  // ----- The byte swaps `be16`, `be32`, `be64` -----

  function Reversed(s: seq<byte>): (r: seq<byte>)
    ensures |r| == |s|
  {
    seq(|s|, i requires 0 <= i < |s| => s[|s| - 1 - i])
  }

  /** The bytes of an integer in memory, on a big-endian or a little-endian host. */
  function Layout(wire: seq<byte>, bigEndianHost: bool): seq<byte> {
    if bigEndianHost then wire else Reversed(wire)
  }

  /** `be16`, `be32` and `be64` exchange bytes in pairs from the outside in, unless the host
      is big-endian. */
  method ToBigEndian(b: array<byte>, bigEndianHost: bool)
    requires b.Length in {2, 4, 8}
    modifies b
    ensures b[..] == Layout(old(b[..]), bigEndianHost)
  {
    if !bigEndianHost {
      var n := b.Length;
      b[0], b[n - 1] := b[n - 1], b[0];
      if n >= 4 {
        b[1], b[n - 2] := b[n - 2], b[1];
      }
      if n == 8 {
        b[2], b[5] := b[5], b[2];
        b[3], b[4] := b[4], b[3];
      }
    }
  }

  /** The `n` low bytes of a number, least significant first. */
  function Little(v: nat, n: nat): (s: seq<byte>)
    ensures |s| == n
  {
    if n == 0 then [] else [v % 0x100] + Little(v / 0x100, n - 1)
  }

  /** The `n` low bytes of a number, most significant first. */
  function Big(v: nat, n: nat): (s: seq<byte>)
    ensures |s| == n
  {
    if n == 0 then [] else Big(v / 0x100, n - 1) + [v % 0x100]
  }

  /** A number of `n` bytes in the memory of a big-endian or a little-endian host. */
  function InMemory(v: nat, n: nat, bigEndianHost: bool): seq<byte> {
    if bigEndianHost then Big(v, n) else Little(v, n)
  }

  lemma {:induction false} ReversedLittle(v: nat, n: nat)
    ensures Reversed(Little(v, n)) == Big(v, n)
  {
    if n > 0 {
      ReversedLittle(v / 0x100, n - 1);
      assert Reversed(Little(v, n)) == Reversed(Little(v / 0x100, n - 1)) + [v % 0x100];
    }
  }

  lemma BigStep(v: nat, n: nat)
    ensures Big(v, n + 1) == Big(v / 0x100, n) + [v % 0x100]
  {
  }

  lemma TwoBytes(v: nat)
    ensures v / 0x100 / 0x100 == v / 0x1_0000
    ensures v % 0x1_0000 / 0x100 == v / 0x100 % 0x100
    ensures v % 0x1_0000 % 0x100 == v % 0x100
  {
  }

  lemma BigPair(v: uint16)
    ensures Big(v, 2) == [v / 0x100, v % 0x100]
  {
    hide Big;
    BigStep(v, 1);
    BigStep(v / 0x100, 0);
    assert Big(v / 0x100 / 0x100, 0) == [];
  }

  lemma BigLast(v: nat, n: nat)
    ensures Big(v, n + 2) == Big(v / 0x1_0000, n) + Big(v % 0x1_0000, 2)
  {
    hide Big;
    BigStep(v, n + 1);
    BigStep(v / 0x100, n);
    TwoBytes(v);
    BigPair(v % 0x1_0000);
  }

  lemma Wire16(v: uint16)
    ensures B16(v) == Big(v, 2)
  {
    BigPair(v);
  }

  lemma Wire32(v: uint32)
    ensures B32(v) == Big(v, 4)
  {
    hide Big, B16;
    BigLast(v, 2);
    Wire16(v / 0x1_0000);
    Wire16(v % 0x1_0000);
  }

  lemma Wire64(v: uint64)
    ensures B64(v) == Big(v, 8)
  {
    hide Big, B16;
    var u, high, low := v / 0x1_0000, v / 0x1_0000_0000, v % 0x1_0000_0000;
    BigLast(v, 6);
    BigLast(u, 4);
    BigLast(low, 2);
    assert u / 0x1_0000 == high && u % 0x1_0000 == low / 0x1_0000 && v % 0x1_0000 == low % 0x1_0000;
    Wire32(high);
    Wire32(low);
    Wire16(low / 0x1_0000);
    Wire16(low % 0x1_0000);
  }

  /** So a number in the host's memory is written most significant byte first on either host. */
  lemma SwapGivesWireOrder(v: nat, bigEndianHost: bool)
    ensures v < 0x1_0000 ==> Layout(InMemory(v, 2, bigEndianHost), bigEndianHost) == B16(v)
    ensures v < 0x1_0000_0000 ==> Layout(InMemory(v, 4, bigEndianHost), bigEndianHost) == B32(v)
    ensures v < 0x1_0000_0000_0000_0000 ==> Layout(InMemory(v, 8, bigEndianHost), bigEndianHost) == B64(v)
  {
    ReversedLittle(v, 2);
    ReversedLittle(v, 4);
    ReversedLittle(v, 8);
    if v < 0x1_0000 {
      Wire16(v);
    }
    if v < 0x1_0000_0000 {
      Wire32(v);
    }
    if v < 0x1_0000_0000_0000_0000 {
      Wire64(v);
    }
  }
}
