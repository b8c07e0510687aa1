/** Headers of the MessagePack format families as read and written by the bundled codec. */
module Msgpack {
  import opened Bytes
  import opened BigEndian

  datatype Error =
    | InputValueTooLarge
    | TypeMarkerReading
    | DataReading
    | ExtTypeReading
    | InvalidType
    | LengthReading

  /** `cmp_object_t`: a type and the union member that belongs to it, with the C type of
      that member. */
  datatype Object =
    | PositiveFixnum(u8: uint8)
    | FixMap(size: uint32)
    | FixArray(size: uint32)
    | FixStr(size: uint32)
    | Nil
    | Boolean(flag: bool)
    | Bin8(size: uint32)
    | Bin16(size: uint32)
    | Bin32(size: uint32)
    | Ext8(kind: int8, size: uint32)
    | Ext16(kind: int8, size: uint32)
    | Ext32(kind: int8, size: uint32)
    | Float(bits32: uint32)
    | Double(bits64: uint64)
    | UInt8(u8: uint8)
    | UInt16(u16: uint16)
    | UInt32(u32: uint32)
    | UInt64(u64: uint64)
    | SInt8(s8: int8)
    | SInt16(s16: int16)
    | SInt32(s32: int32)
    | SInt64(s64: int64)
    | FixExt1(kind: int8, size: uint32)
    | FixExt2(kind: int8, size: uint32)
    | FixExt4(kind: int8, size: uint32)
    | FixExt8(kind: int8, size: uint32)
    | FixExt16(kind: int8, size: uint32)
    | Str8(size: uint32)
    | Str16(size: uint32)
    | Str32(size: uint32)
    | Array16(size: uint32)
    | Array32(size: uint32)
    | Map16(size: uint32)
    | Map32(size: uint32)
    | NegativeFixnum(s8: int8)

  /** The member lies in the range that the object's own format can express. */
  predicate WellFormed(o: Object) {
    match o
    case PositiveFixnum(c) => c <= 0x7F
    case FixMap(n) => n <= 0xF
    case FixArray(n) => n <= 0xF
    case FixStr(n) => n <= 0x1F
    case Bin8(n) => n <= 0xFF
    case Bin16(n) => n <= 0xFFFF
    case Ext8(_, n) => n <= 0xFF
    case Ext16(_, n) => n <= 0xFFFF
    case FixExt1(_, n) => n == 1
    case FixExt2(_, n) => n == 2
    case FixExt4(_, n) => n == 4
    case FixExt8(_, n) => n == 8
    case FixExt16(_, n) => n == 16
    case Str8(n) => n <= 0xFF
    case Str16(n) => n <= 0xFFFF
    case Array16(n) => n <= 0xFFFF
    case Map16(n) => n <= 0xFFFF
    case NegativeFixnum(c) => -32 <= c <= -1
    case _ => true
  }

  datatype WriteResult = Written(bytes: seq<byte>) | Rejected(error: Error)

  /** A one-byte header that carries a small count; the count arrives truncated to 8 bits. */
  function WriteFixed(marker: byte, limit: byte, n: uint32): WriteResult
    requires marker + limit < 0x100
  {
    var m := n % 0x100;
    if m <= limit then Written([marker + m]) else Rejected(InputValueTooLarge)
  }

  /** `cmp_write_object`: the header bytes, with each member truncated to the parameter type
      of the writer it is passed to. */
  function WriteObject(o: Object): WriteResult {
    match o
    case PositiveFixnum(c) => if c <= 0x7F then Written([c]) else Rejected(InputValueTooLarge)
    case FixMap(n) => WriteFixed(0x80, 0xF, n)
    case FixArray(n) => WriteFixed(0x90, 0xF, n)
    case FixStr(n) => WriteFixed(0xA0, 0x1F, n)
    case Nil => Written([0xC0])
    case Boolean(b) => Written([if b then 0xC3 else 0xC2])
    case Bin8(n) => Written([0xC4, n % 0x100])
    case Bin16(n) => Written([0xC5] + B16(n % 0x1_0000))
    case Bin32(n) => Written([0xC6] + B32(n))
    case Ext8(t, n) => Written([0xC7] + [n % 0x100] + [Neg8(t)])
    case Ext16(t, n) => Written([0xC8] + B16(n % 0x1_0000) + [Neg8(t)])
    case Ext32(t, n) => Written([0xC9] + B32(n) + [Neg8(t)])
    case Float(f) => Written([0xCA] + B32(f))
    case Double(d) => Written([0xCB] + B64(d))
    case UInt8(u) => Written([0xCC, u])
    case UInt16(u) => Written([0xCD] + B16(u))
    case UInt32(u) => Written([0xCE] + B32(u))
    case UInt64(u) => Written([0xCF] + B64(u))
    case SInt8(i) => Written([0xD0, Neg8(i)])
    case SInt16(i) => Written([0xD1] + B16(Neg16(i)))
    case SInt32(i) => Written([0xD2] + B32(Neg32(i)))
    case SInt64(i) => Written([0xD3] + B64(Neg64(i)))
    case FixExt1(t, _) => Written([0xD4, Neg8(t)])
    case FixExt2(t, _) => Written([0xD5, Neg8(t)])
    case FixExt4(t, _) => Written([0xD6, Neg8(t)])
    case FixExt8(t, _) => Written([0xD7, Neg8(t)])
    case FixExt16(t, _) => Written([0xD8, Neg8(t)])
    case Str8(n) => Written([0xD9, n % 0x100])
    case Str16(n) => Written([0xDA] + B16(n % 0x1_0000))
    case Str32(n) => Written([0xDB] + B32(n))
    case Array16(n) => Written([0xDC] + B16(n % 0x1_0000))
    case Array32(n) => Written([0xDD] + B32(n))
    case Map16(n) => Written([0xDE] + B16(n % 0x1_0000))
    case Map32(n) => Written([0xDF] + B32(n))
    case NegativeFixnum(c) => if -32 <= c <= -1 then Written([Neg8(c)]) else Rejected(InputValueTooLarge)
  }

  /** What a read leaves behind: the object or the error, and the bytes not consumed. */
  datatype ReadResult = Got(obj: Object, rest: seq<byte>) | Failed(error: Error, rest: seq<byte>)

  /** The part of `cmp_read_object` after the marker, for the marker's family. */
  function ReadBody(m: byte, s: seq<byte>): ReadResult {
    if m <= 0x7F then Got(PositiveFixnum(m), s)
    else if m <= 0x8F then Got(FixMap(m - 0x80), s)
    else if m <= 0x9F then Got(FixArray(m - 0x90), s)
    else if m <= 0xBF then Got(FixStr(m - 0xA0), s)
    else if m == 0xC0 then Got(Nil, s)
    else if m == 0xC2 then Got(Boolean(false), s)
    else if m == 0xC3 then Got(Boolean(true), s)
    else if m <= 0xC9 then ReadBinOrExt(m, s)
    else if m <= 0xD3 then ReadNumber(m, s)
    else if m <= 0xD8 then ReadFixExt(m, s)
    else if m <= 0xDF then ReadCount(m, s)
    else Got(NegativeFixnum(Sign8(m)), s)
  }

  /** 0xC1 is unassigned; 0xC4 to 0xC9 are the bin and ext families with a length field. */
  function ReadBinOrExt(m: byte, s: seq<byte>): ReadResult
    requires m == 0xC1 || 0xC4 <= m <= 0xC9
  {
    if m == 0xC1 then Failed(InvalidType, s)
    else if m == 0xC4 then if |s| < 1 then Failed(LengthReading, s) else Got(Bin8(s[0]), s[1..])
    else if m == 0xC5 then if |s| < 2 then Failed(LengthReading, s) else Got(Bin16(U16(s)), s[2..])
    else if m == 0xC6 then if |s| < 4 then Failed(LengthReading, s) else Got(Bin32(U32(s)), s[4..])
    else if m == 0xC7 then
      if |s| < 1 then Failed(LengthReading, s)
      else if |s| < 2 then Failed(ExtTypeReading, s[1..])
      else Got(Ext8(Sign8(s[1]), s[0]), s[2..])
    else if m == 0xC8 then
      if |s| < 2 then Failed(LengthReading, s)
      else if |s| < 3 then Failed(ExtTypeReading, s[2..])
      else Got(Ext16(Sign8(s[2]), U16(s)), s[3..])
    else
      if |s| < 4 then Failed(LengthReading, s)
      else if |s| < 5 then Failed(ExtTypeReading, s[4..])
      else Got(Ext32(Sign8(s[4]), U32(s)), s[5..])
  }

  function ReadNumber(m: byte, s: seq<byte>): ReadResult
    requires 0xCA <= m <= 0xD3
  {
    if |s| < NumberWidth(m) then Failed(DataReading, s)
    else if m == 0xCA then Got(Float(U32(s)), s[4..])
    else if m == 0xCB then Got(Double(U64(s)), s[8..])
    else if m == 0xCC then Got(UInt8(s[0]), s[1..])
    else if m == 0xCD then Got(UInt16(U16(s)), s[2..])
    else if m == 0xCE then Got(UInt32(U32(s)), s[4..])
    else if m == 0xCF then Got(UInt64(U64(s)), s[8..])
    else if m == 0xD0 then Got(SInt8(Sign8(s[0])), s[1..])
    else if m == 0xD1 then Got(SInt16(Sign16(U16(s))), s[2..])
    else if m == 0xD2 then Got(SInt32(Sign32(U32(s))), s[4..])
    else Got(SInt64(Sign64(U64(s))), s[8..])
  }

  function NumberWidth(m: byte): nat
    requires 0xCA <= m <= 0xD3
  {
    if m == 0xCC || m == 0xD0 then 1
    else if m == 0xCD || m == 0xD1 then 2
    else if m == 0xCA || m == 0xCE || m == 0xD2 then 4
    else 8
  }

  function ReadFixExt(m: byte, s: seq<byte>): ReadResult
    requires 0xD4 <= m <= 0xD8
  {
    if |s| < 1 then Failed(ExtTypeReading, s)
    else if m == 0xD4 then Got(FixExt1(Sign8(s[0]), 1), s[1..])
    else if m == 0xD5 then Got(FixExt2(Sign8(s[0]), 2), s[1..])
    else if m == 0xD6 then Got(FixExt4(Sign8(s[0]), 4), s[1..])
    else if m == 0xD7 then Got(FixExt8(Sign8(s[0]), 8), s[1..])
    else Got(FixExt16(Sign8(s[0]), 16), s[1..])
  }

  /** str, array and map headers with a length field. */
  function ReadCount(m: byte, s: seq<byte>): ReadResult
    requires 0xD9 <= m <= 0xDF
  {
    if m == 0xD9 then if |s| < 1 then Failed(DataReading, s) else Got(Str8(s[0]), s[1..])
    else if m == 0xDA || m == 0xDC || m == 0xDE then
      if |s| < 2 then Failed(DataReading, s)
      else if m == 0xDA then Got(Str16(U16(s)), s[2..])
      else if m == 0xDC then Got(Array16(U16(s)), s[2..])
      else Got(Map16(U16(s)), s[2..])
    else
      if |s| < 4 then Failed(DataReading, s)
      else if m == 0xDB then Got(Str32(U32(s)), s[4..])
      else if m == 0xDD then Got(Array32(U32(s)), s[4..])
      else Got(Map32(U32(s)), s[4..])
  }

  /** `cmp_read_object` on the bytes that remain in the stream. */
  function ReadObject(s: seq<byte>): ReadResult {
    if |s| < 1 then Failed(TypeMarkerReading, s) else ReadBody(s[0], s[1..])
  }

  // ----- Writing, then reading -----

  ghost predicate ReadsBack(o: Object, rest: seq<byte>) {
    WriteObject(o).Written? && ReadObject(WriteObject(o).bytes + rest) == Got(o, rest)
  }

  predicate IsFloat(o: Object) { o.Float? || o.Double? }
  predicate IsUnsigned(o: Object) { o.UInt8? || o.UInt16? || o.UInt32? || o.UInt64? }
  predicate IsSigned(o: Object) { o.SInt8? || o.SInt16? || o.SInt32? || o.SInt64? }
  predicate IsLongExt(o: Object) { o.Ext8? || o.Ext16? || o.Ext32? }
  predicate IsLongBin(o: Object) { o.Bin16? || o.Bin32? }
  predicate IsLongCount(o: Object) { o.Str16? || o.Str32? || o.Array16? || o.Array32? || o.Map16? || o.Map32? }

  /** Reading undoes writing, whatever follows in the stream. */
  lemma WriteThenRead(o: Object, rest: seq<byte>)
    requires WellFormed(o)
    ensures ReadsBack(o, rest)
  {
    if IsLongBin(o) {
      BinReadsBack(o, rest);
    } else if IsLongExt(o) {
      ExtReadsBack(o, rest);
    } else if IsUnsigned(o) {
      UnsignedReadsBack(o, rest);
    } else if IsSigned(o) {
      SignedReadsBack(o, rest);
    } else if IsFloat(o) {
      FloatReadsBack(o, rest);
    } else if IsLongCount(o) {
      CountReadsBack(o, rest);
    } else {
      ShortReadsBack(o, rest);
    }
  }

  lemma ShortReadsBack(o: Object, rest: seq<byte>)
    requires WellFormed(o) && !IsLongBin(o) && !IsLongExt(o) && !IsUnsigned(o) && !IsSigned(o)
    requires !IsFloat(o) && !IsLongCount(o)
    ensures ReadsBack(o, rest)
  {
    hide B16, B32, B64, U16, U32, U64;
    var s := WriteObject(o).bytes + rest;
    assert |WriteObject(o).bytes| == 1 ==> s[1..] == rest;
    assert |WriteObject(o).bytes| == 2 ==> s[1..][1..] == rest;
  }

  lemma BinReadsBack(o: Object, rest: seq<byte>)
    requires WellFormed(o) && IsLongBin(o)
    ensures ReadsBack(o, rest)
  {
    hide B16, B32, B64, U16, U32, U64;
    match o
    case Bin16(n) => Split([0xC5], B16(n), rest); Read16(n, rest);
    case Bin32(n) => Split([0xC6], B32(n), rest); Read32(n, rest);
  }

  lemma ExtReadsBack(o: Object, rest: seq<byte>)
    requires WellFormed(o) && IsLongExt(o)
    ensures ReadsBack(o, rest)
  {
    match o
    case Ext8(t, n) =>
      assert WriteObject(o).bytes + rest == [0xC7] + ([n, Neg8(t)] + rest);
    case Ext16(t, n) => Ext16ReadsBack(t, n, rest);
    case Ext32(t, n) => Ext32ReadsBack(t, n, rest);
  }

  lemma Ext16ReadsBack(t: int8, n: uint16, rest: seq<byte>)
    ensures ReadsBack(Ext16(t, n), rest)
  {
    hide B16, B32, B64, U16, U32, U64;
    var tail := [Neg8(t)] + rest;
    Split([0xC8], B16(n), tail);
    SplitExt([0xC8], B16(n), t, rest);
    Read16(n, tail);
  }

  lemma Ext32ReadsBack(t: int8, n: uint32, rest: seq<byte>)
    ensures ReadsBack(Ext32(t, n), rest)
  {
    hide B16, B32, B64, U16, U32, U64;
    var tail := [Neg8(t)] + rest;
    Split([0xC9], B32(n), tail);
    SplitExt([0xC9], B32(n), t, rest);
    Read32(n, tail);
  }

  lemma FloatReadsBack(o: Object, rest: seq<byte>)
    requires IsFloat(o)
    ensures ReadsBack(o, rest)
  {
    hide B16, B32, B64, U16, U32, U64;
    match o
    case Float(f) => Split([0xCA], B32(f), rest); Read32(f, rest);
    case Double(d) => Split([0xCB], B64(d), rest); Read64(d, rest);
  }

  lemma UnsignedReadsBack(o: Object, rest: seq<byte>)
    requires IsUnsigned(o)
    ensures ReadsBack(o, rest)
  {
    hide B16, B32, B64, U16, U32, U64;
    match o
    case UInt8(u) => Split([0xCC], [u], rest); assert [0xCC, u] == [0xCC] + [u];
    case UInt16(u) => Split([0xCD], B16(u), rest); Read16(u, rest);
    case UInt32(u) => Split([0xCE], B32(u), rest); Read32(u, rest);
    case UInt64(u) => Split([0xCF], B64(u), rest); Read64(u, rest);
  }

  lemma SignedReadsBack(o: Object, rest: seq<byte>)
    requires IsSigned(o)
    ensures ReadsBack(o, rest)
  {
    hide B16, B32, B64, U16, U32, U64;
    match o
    case SInt8(i) => Split([0xD0], [Neg8(i)], rest); assert [0xD0, Neg8(i)] == [0xD0] + [Neg8(i)];
    case SInt16(i) => Split([0xD1], B16(Neg16(i)), rest); Read16(Neg16(i), rest);
    case SInt32(i) => Split([0xD2], B32(Neg32(i)), rest); Read32(Neg32(i), rest);
    case SInt64(i) => SInt64ReadsBack(i, rest);
  }

  lemma SInt64ReadsBack(i: int64, rest: seq<byte>)
    ensures ReadsBack(SInt64(i), rest)
  {
    hide B16, B32, B64, U16, U32, U64;
    Split([0xD3], B64(Neg64(i)), rest);
    Read64(Neg64(i), rest);
  }

  lemma CountReadsBack(o: Object, rest: seq<byte>)
    requires WellFormed(o) && IsLongCount(o)
    ensures ReadsBack(o, rest)
  {
    if o.Str16? || o.Array16? || o.Map16? {
      Count16ReadsBack(o, rest);
    } else {
      Count32ReadsBack(o, rest);
    }
  }

  lemma Count16ReadsBack(o: Object, rest: seq<byte>)
    requires WellFormed(o) && (o.Str16? || o.Array16? || o.Map16?)
    ensures ReadsBack(o, rest)
  {
    hide B16, B32, B64, U16, U32, U64;
    var n := o.size;
    assert n % 0x1_0000 == n;
    Read16(n, rest);
    match o
    case Str16(_) => Split([0xDA], B16(n), rest);
    case Array16(_) => Split([0xDC], B16(n), rest);
    case Map16(_) => Split([0xDE], B16(n), rest);
  }

  lemma Count32ReadsBack(o: Object, rest: seq<byte>)
    requires o.Str32? || o.Array32? || o.Map32?
    ensures ReadsBack(o, rest)
  {
    hide B16, B32, B64, U16, U32, U64;
    Split([if o.Str32? then 0xDB else if o.Array32? then 0xDD else 0xDF], B32(o.size), rest);
    Read32(o.size, rest);
  }

  lemma Split(marker: seq<byte>, field: seq<byte>, rest: seq<byte>)
    requires |marker| == 1
    ensures (marker + field + rest)[1..] == field + rest && (marker + field + rest)[0] == marker[0]
  {
  }

  lemma SplitExt(marker: seq<byte>, field: seq<byte>, t: int8, rest: seq<byte>)
    requires |marker| == 1
    ensures marker + field + [Neg8(t)] + rest == marker + field + ([Neg8(t)] + rest)
    ensures (field + ([Neg8(t)] + rest))[|field|] == Neg8(t)
    ensures (field + ([Neg8(t)] + rest))[|field| + 1..] == rest
  {
  }

  /** The round trip succeeds exactly for well-formed objects: any other object is either
      rejected or comes back different, because its member was truncated. */
  lemma RoundTripIff(o: Object, rest: seq<byte>)
    ensures ReadsBack(o, rest) <==> WellFormed(o)
  {
    if WellFormed(o) {
      WriteThenRead(o, rest);
    } else if WriteObject(o).Written? {
      TruncatedWrites(o);
      WriteThenRead(Truncated(o), rest);
    }
  }

  /** The object that a writer's parameter types make of `o`. */
  function Truncated(o: Object): Object {
    match o
    case FixMap(n) => FixMap(n % 0x100)
    case FixArray(n) => FixArray(n % 0x100)
    case FixStr(n) => FixStr(n % 0x100)
    case Bin8(n) => Bin8(n % 0x100)
    case Bin16(n) => Bin16(n % 0x1_0000)
    case Ext8(t, n) => Ext8(t, n % 0x100)
    case Ext16(t, n) => Ext16(t, n % 0x1_0000)
    case FixExt1(t, _) => FixExt1(t, 1)
    case FixExt2(t, _) => FixExt2(t, 2)
    case FixExt4(t, _) => FixExt4(t, 4)
    case FixExt8(t, _) => FixExt8(t, 8)
    case FixExt16(t, _) => FixExt16(t, 16)
    case Str8(n) => Str8(n % 0x100)
    case Str16(n) => Str16(n % 0x1_0000)
    case Array16(n) => Array16(n % 0x1_0000)
    case Map16(n) => Map16(n % 0x1_0000)
    case _ => o
  }

  lemma TruncatedWrites(o: Object)
    requires !WellFormed(o) && WriteObject(o).Written?
    ensures Truncated(o) != o && WellFormed(Truncated(o)) && WriteObject(Truncated(o)) == WriteObject(o)
  {
    if o.Bin16? || o.Ext16? || o.Str16? || o.Array16? || o.Map16? {
      TruncatedTwoBytes(o, o.size % 0x1_0000);
    } else if o.FixMap? || o.FixArray? || o.FixStr? {
      TruncatedFixed(o, o.size % 0x100);
    } else {
      TruncatedOneByte(o);
    }
  }

  lemma TruncatedTwoBytes(o: Object, m: uint16)
    requires o.Bin16? || o.Ext16? || o.Str16? || o.Array16? || o.Map16?
    requires m == o.size % 0x1_0000 && !WellFormed(o)
    ensures Truncated(o) != o && WellFormed(Truncated(o)) && WriteObject(Truncated(o)) == WriteObject(o)
  {
    hide B16, B32, B64, U16, U32, U64;
    assert m % 0x1_0000 == m;
  }

  lemma TruncatedFixed(o: Object, m: uint8)
    requires o.FixMap? || o.FixArray? || o.FixStr?
    requires m == o.size % 0x100 && !WellFormed(o) && WriteObject(o).Written?
    ensures Truncated(o) != o && WellFormed(Truncated(o)) && WriteObject(Truncated(o)) == WriteObject(o)
  {
    hide B16, B32, B64, U16, U32, U64;
    assert m % 0x100 == m;
  }

  lemma TruncatedOneByte(o: Object)
    requires !WellFormed(o) && WriteObject(o).Written?
    requires !(o.Bin16? || o.Ext16? || o.Str16? || o.Array16? || o.Map16? || o.FixMap? || o.FixArray? || o.FixStr?)
    ensures Truncated(o) != o && WellFormed(Truncated(o)) && WriteObject(Truncated(o)) == WriteObject(o)
  {
    hide B16, B32, B64, U16, U32, U64;
  }

  // ----- Reading, then writing -----

  ghost predicate Rewrites(m: byte, s: seq<byte>, r: ReadResult) {
    r.Got? ==> WellFormed(r.obj) && WriteObject(r.obj).Written? && WriteObject(r.obj).bytes + r.rest == [m] + s
  }

  /** Writing back any object that was read reproduces exactly the consumed bytes. */
  lemma ReadThenWrite(s: seq<byte>)
    requires ReadObject(s).Got?
    ensures var r := ReadObject(s);
            WellFormed(r.obj) && WriteObject(r.obj).Written? && s == WriteObject(r.obj).bytes + r.rest
  {
    hide B16, B32, B64, U16, U32, U64;
    var m, t := s[0], s[1..];
    assert s == [m] + t;
    if m == 0xC1 || 0xC4 <= m <= 0xC6 {
      BinRewrites(m, t);
    } else if 0xC7 <= m <= 0xC9 {
      ExtRewrites(m, t);
    } else if 0xCA <= m <= 0xD3 {
      NumberRewrites(m, t);
    } else if 0xD4 <= m <= 0xD8 {
      FixExtRewrites(m, t);
    } else if 0xD9 <= m <= 0xDF {
      CountRewrites(m, t);
    } else {
      assert WriteObject(ReadBody(m, t).obj).bytes == [m];
    }
  }

  lemma BinRewrites(m: byte, s: seq<byte>)
    requires m == 0xC1 || 0xC4 <= m <= 0xC6
    ensures Rewrites(m, s, ReadBinOrExt(m, s))
  {
    hide B16, B32, B64, U16, U32, U64;
    if m == 0xC5 && |s| >= 2 {
      Write16(s);
      assert s == s[..2] + s[2..];
    }
    if m == 0xC6 && |s| >= 4 {
      Write32(s);
      assert s == s[..4] + s[4..];
    }
  }

  lemma ExtRewrites(m: byte, s: seq<byte>)
    requires 0xC7 <= m <= 0xC9
    ensures Rewrites(m, s, ReadBinOrExt(m, s))
  {
    hide B16, B32, B64, U16, U32, U64;
    if m == 0xC7 && |s| >= 2 {
      assert s == [s[0]] + [s[1]] + s[2..];
    } else if m == 0xC8 {
      Ext16Rewrites(s);
    } else if m == 0xC9 {
      Ext32Rewrites(s);
    }
  }

  lemma Ext16Rewrites(s: seq<byte>)
    ensures Rewrites(0xC8, s, ReadBinOrExt(0xC8, s))
  {
    hide B16, B32, B64, U16, U32, U64;
    if |s| >= 3 {
      Write16(s);
      assert s == s[..2] + [s[2]] + s[3..];
    }
  }

  lemma Ext32Rewrites(s: seq<byte>)
    ensures Rewrites(0xC9, s, ReadBinOrExt(0xC9, s))
  {
    hide B16, B32, B64, U16, U32, U64;
    if |s| >= 5 {
      Write32(s);
      assert s == s[..4] + [s[4]] + s[5..];
    }
  }

  lemma NumberRewrites(m: byte, s: seq<byte>)
    requires 0xCA <= m <= 0xD3
    ensures Rewrites(m, s, ReadNumber(m, s))
  {
    if m in {0xCC, 0xD0} {
    } else if m in {0xCD, 0xD1} {
      Number16Rewrites(m, s);
    } else if m in {0xCA, 0xCE, 0xD2} {
      Number32Rewrites(m, s);
    } else {
      Number64Rewrites(m, s);
    }
  }

  lemma Number16Rewrites(m: byte, s: seq<byte>)
    requires m == 0xCD || m == 0xD1
    ensures Rewrites(m, s, ReadNumber(m, s))
  {
    hide B16, B32, B64, U16, U32, U64;
    if |s| >= 2 {
      Write16(s);
      assert s == s[..2] + s[2..];
    }
  }

  lemma Number32Rewrites(m: byte, s: seq<byte>)
    requires m == 0xCA || m == 0xCE || m == 0xD2
    ensures Rewrites(m, s, ReadNumber(m, s))
  {
    hide B16, B32, B64, U16, U32, U64;
    if |s| >= 4 {
      Write32(s);
      assert s == s[..4] + s[4..];
    }
  }

  lemma Number64Rewrites(m: byte, s: seq<byte>)
    requires m == 0xCB || m == 0xCF || m == 0xD3
    ensures Rewrites(m, s, ReadNumber(m, s))
  {
    hide B16, B32, B64, U16, U32, U64;
    if |s| >= 8 {
      Write64(s);
      assert s == s[..8] + s[8..];
    }
  }

  lemma FixExtRewrites(m: byte, s: seq<byte>)
    requires 0xD4 <= m <= 0xD8
    ensures Rewrites(m, s, ReadFixExt(m, s))
  {
  }

  lemma CountRewrites(m: byte, s: seq<byte>)
    requires 0xD9 <= m <= 0xDF
    ensures Rewrites(m, s, ReadCount(m, s))
  {
    if m in {0xDA, 0xDC, 0xDE} {
      Count16Rewrites(m, s);
    } else if m in {0xDB, 0xDD, 0xDF} {
      Count32Rewrites(m, s);
    }
  }

  lemma Count16Rewrites(m: byte, s: seq<byte>)
    requires m == 0xDA || m == 0xDC || m == 0xDE
    ensures Rewrites(m, s, ReadCount(m, s))
  {
    hide B16, B32, B64, U16, U32, U64;
    if |s| >= 2 {
      Write16(s);
      assert s == s[..2] + s[2..];
    }
  }

  lemma Count32Rewrites(m: byte, s: seq<byte>)
    requires m == 0xDB || m == 0xDD || m == 0xDF
    ensures Rewrites(m, s, ReadCount(m, s))
  {
    hide B16, B32, B64, U16, U32, U64;
    if |s| >= 4 {
      Write32(s);
      assert s == s[..4] + s[4..];
    }
  }

  /** What a successful read yields depends only on the bytes it consumed. */
  lemma ReadIsLocal(s: seq<byte>, other: seq<byte>)
    requires ReadObject(s).Got?
    ensures var used := WriteObject(ReadObject(s).obj);
            used.Written? && ReadObject(used.bytes + other) == Got(ReadObject(s).obj, other)
  {
    hide ReadObject;
    ReadThenWrite(s);
    WriteThenRead(ReadObject(s).obj, other);
  }

  /** No header is a proper prefix of another one. */
  lemma HeadersArePrefixFree(a: Object, b: Object)
    requires WellFormed(a) && WellFormed(b)
    ensures WriteObject(a).Written? && WriteObject(b).Written?
    ensures WriteObject(a).bytes <= WriteObject(b).bytes ==> a == b
  {
    hide ReadObject;
    WriteThenRead(a, []);
    WriteThenRead(b, []);
    if WriteObject(a).bytes <= WriteObject(b).bytes {
      PrefixReadsSame(a, b, WriteObject(a).bytes, WriteObject(b).bytes);
    }
  }

  lemma PrefixReadsSame(a: Object, b: Object, x: seq<byte>, y: seq<byte>)
    requires WellFormed(a) && WellFormed(b) && x <= y
    requires WriteObject(a) == Written(x) && WriteObject(b) == Written(y)
    ensures a == b
  {
    hide ReadObject;
    WriteThenRead(a, y[|x|..]);
    WriteThenRead(b, []);
    assert y + [] == y == x + y[|x|..];
  }

  // ----- The format table of the MessagePack specification -----

  /** The first bytes that the specification assigns to a format. */
  function FirstBytes(o: Object): (byte, byte) {
    match o
    case PositiveFixnum(_) => (0x00, 0x7F)
    case FixMap(_) => (0x80, 0x8F)
    case FixArray(_) => (0x90, 0x9F)
    case FixStr(_) => (0xA0, 0xBF)
    case Nil => (0xC0, 0xC0)
    case Boolean(_) => (0xC2, 0xC3)
    case Bin8(_) => (0xC4, 0xC4)
    case Bin16(_) => (0xC5, 0xC5)
    case Bin32(_) => (0xC6, 0xC6)
    case Ext8(_, _) => (0xC7, 0xC7)
    case Ext16(_, _) => (0xC8, 0xC8)
    case Ext32(_, _) => (0xC9, 0xC9)
    case Float(_) => (0xCA, 0xCA)
    case Double(_) => (0xCB, 0xCB)
    case UInt8(_) => (0xCC, 0xCC)
    case UInt16(_) => (0xCD, 0xCD)
    case UInt32(_) => (0xCE, 0xCE)
    case UInt64(_) => (0xCF, 0xCF)
    case SInt8(_) => (0xD0, 0xD0)
    case SInt16(_) => (0xD1, 0xD1)
    case SInt32(_) => (0xD2, 0xD2)
    case SInt64(_) => (0xD3, 0xD3)
    case FixExt1(_, _) => (0xD4, 0xD4)
    case FixExt2(_, _) => (0xD5, 0xD5)
    case FixExt4(_, _) => (0xD6, 0xD6)
    case FixExt8(_, _) => (0xD7, 0xD7)
    case FixExt16(_, _) => (0xD8, 0xD8)
    case Str8(_) => (0xD9, 0xD9)
    case Str16(_) => (0xDA, 0xDA)
    case Str32(_) => (0xDB, 0xDB)
    case Array16(_) => (0xDC, 0xDC)
    case Array32(_) => (0xDD, 0xDD)
    case Map16(_) => (0xDE, 0xDE)
    case Map32(_) => (0xDF, 0xDF)
    case NegativeFixnum(_) => (0xE0, 0xFF)
  }

  /** Bytes in a header by its first byte; 0xC1 is never used. */
  function HeaderSize(first: byte): nat {
    if first == 0xC1 then 0
    else if first <= 0xC3 || first >= 0xE0 then 1
    else if first in {0xC4, 0xCC, 0xD0, 0xD4, 0xD5, 0xD6, 0xD7, 0xD8, 0xD9} then 2
    else if first in {0xC5, 0xC7, 0xCD, 0xD1, 0xDA, 0xDC, 0xDE} then 3
    else if first == 0xC8 then 4
    else if first in {0xC6, 0xCA, 0xCE, 0xD2, 0xDB, 0xDD, 0xDF} then 5
    else if first == 0xC9 then 6
    else 9
  }

  /** The reader follows the table: it succeeds exactly on an assigned first byte with a whole
      header behind it, consumes that header, and yields the format the byte is assigned to. */
  lemma ReaderFollowsTable(s: seq<byte>)
    ensures ReadObject(s).Got? <==> |s| > 0 && s[0] != 0xC1 && |s| >= HeaderSize(s[0])
    ensures ReadObject(s).Got? ==>
              && |s| - |ReadObject(s).rest| == HeaderSize(s[0])
              && FirstBytes(ReadObject(s).obj).0 <= s[0] <= FirstBytes(ReadObject(s).obj).1
  {
    hide B16, B32, B64, U16, U32, U64;
    if |s| > 0 {
      BodyFollowsTable(s[0], s[1..]);
    }
  }

  lemma BodyFollowsTable(m: byte, s: seq<byte>)
    ensures ReadBody(m, s).Got? <==> m != 0xC1 && |s| + 1 >= HeaderSize(m)
    ensures ReadBody(m, s).Got? ==>
              && |s| + 1 - |ReadBody(m, s).rest| == HeaderSize(m)
              && FirstBytes(ReadBody(m, s).obj).0 <= m <= FirstBytes(ReadBody(m, s).obj).1
  {
    hide U16, U32, U64;
  }

  /** What a first byte itself carries, counted from the first one assigned to its format. */
  function Inline(o: Object): int {
    match o
    case PositiveFixnum(c) => c
    case FixMap(n) => n % 0x100
    case FixArray(n) => n % 0x100
    case FixStr(n) => n % 0x100
    case Boolean(b) => if b then 1 else 0
    case NegativeFixnum(c) => c + 32
    case _ => 0
  }

  /** The number in the header's field, and how many bytes the field has. */
  function Field(o: Object): (int, nat) {
    match o
    case Bin8(n) => (n, 1) case Bin16(n) => (n, 2) case Bin32(n) => (n, 4)
    case Ext8(_, n) => (n, 1) case Ext16(_, n) => (n, 2) case Ext32(_, n) => (n, 4)
    case Float(f) => (f, 4) case Double(d) => (d, 8)
    case UInt8(u) => (u, 1) case UInt16(u) => (u, 2) case UInt32(u) => (u, 4) case UInt64(u) => (u, 8)
    case SInt8(i) => (i, 1) case SInt16(i) => (i, 2) case SInt32(i) => (i, 4) case SInt64(i) => (i, 8)
    case Str8(n) => (n, 1) case Str16(n) => (n, 2) case Str32(n) => (n, 4)
    case Array16(n) => (n, 2) case Array32(n) => (n, 4)
    case Map16(n) => (n, 2) case Map32(n) => (n, 4)
    case _ => (0, 0)
  }

  predicate IsFixExt(o: Object) { o.FixExt1? || o.FixExt2? || o.FixExt4? || o.FixExt8? || o.FixExt16? }

  /** The application's type byte, which stands last in an ext header. */
  function TypeByte(o: Object): seq<byte> {
    if IsLongExt(o) || IsFixExt(o) then [o.kind % 0x100] else []
  }

  /** The one-byte formats whose member does not fit. */
  predicate Refused(o: Object) {
    match o
    case PositiveFixnum(c) => c > 0x7F
    case FixMap(n) => n % 0x100 > 0xF
    case FixArray(n) => n % 0x100 > 0xF
    case FixStr(n) => n % 0x100 > 0x1F
    case NegativeFixnum(c) => c < -32 || c > -1
    case _ => false
  }

  function Power256(n: nat): int {
    if n == 0 then 1 else 0x100 * Power256(n - 1)
  }

  lemma Powers()
    ensures Power256(0) == 1 && Power256(1) == 0x100 && Power256(2) == 0x1_0000
    ensures Power256(4) == 0x1_0000_0000 && Power256(8) == 0x1_0000_0000_0000_0000
  {
    assert Power256(3) == 0x100_0000;
    assert Power256(5) == 0x100_0000_0000 && Power256(6) == 0x1_0000_0000_0000 && Power256(7) == 0x100_0000_0000_0000;
  }

  /** The `n` low bytes of a number in two's complement, most significant first. */
  function FieldBytes(v: int, n: nat): seq<byte>
    requires n in {0, 1, 2, 4, 8}
  {
    Powers();
    Big(v % Power256(n), n)
  }

  /** The bytes that the specification prescribes for an object. */
  function SpecBytes(o: Object): seq<byte>
    requires !Refused(o)
  {
    [FirstBytes(o).0 + Inline(o)] + FieldBytes(Field(o).0, Field(o).1) + TypeByte(o)
  }

  /** The writer follows the specification for all 35 formats: the first byte, then the field
      most significant byte first, then the ext type; it refuses only a small format whose
      member is too large. */
  lemma WriterFollowsTable(o: Object)
    ensures WriteObject(o) == if Refused(o) then Rejected(InputValueTooLarge) else Written(SpecBytes(o))
  {
    if !Refused(o) {
      match Field(o).1
      case 0 => NoField(o);
      case 1 => OneByteField(o);
      case 2 => TwoByteField(o);
      case 4 => FourByteField(o);
      case _ => EightByteField(o);
    }
  }

  /** And the reader reads what the specification prescribes. */
  lemma ReaderReadsTable(o: Object, rest: seq<byte>)
    requires WellFormed(o)
    ensures !Refused(o) && ReadObject(SpecBytes(o) + rest) == Got(o, rest)
  {
    hide ReadObject, WriteObject, SpecBytes;
    WriterFollowsTable(o);
    WriteThenRead(o, rest);
  }

  lemma NoField(o: Object)
    requires !Refused(o) && Field(o).1 == 0
    ensures WriteObject(o) == Written(SpecBytes(o))
  {
    hide B16, B32, B64;
    assert FieldBytes(0, 0) == [];
    assert IsFixExt(o) ==> Neg8(o.kind) == o.kind % 0x100;
  }

  lemma OneByteField(o: Object)
    requires Field(o).1 == 1
    ensures WriteObject(o) == Written(SpecBytes(o))
  {
    hide B16, B32, B64, Big;
    Powers();
    var v := Field(o).0;
    BigOne(v % 0x100);
    assert FieldBytes(v, 1) == [v % 0x100];
    assert o.SInt8? ==> Neg8(o.s8) == o.s8 % 0x100;
    assert o.Ext8? ==> Neg8(o.kind) == o.kind % 0x100;
  }

  lemma BigOne(v: byte)
    ensures Big(v, 1) == [v]
  {
    BigStep(v, 0);
  }

  lemma TwoByteField(o: Object)
    requires Field(o).1 == 2
    ensures WriteObject(o) == Written(SpecBytes(o))
  {
    hide B16, B32, B64, Big;
    Powers();
    var v := Field(o).0;
    Wire16(v % 0x1_0000);
    assert FieldBytes(v, 2) == B16(v % 0x1_0000);
    assert o.SInt16? ==> Neg16(o.s16) == o.s16 % 0x1_0000;
    assert o.UInt16? ==> o.u16 == o.u16 % 0x1_0000;
    assert o.Ext16? ==> Neg8(o.kind) == o.kind % 0x100;
  }

  lemma FourByteField(o: Object)
    requires Field(o).1 == 4
    ensures WriteObject(o) == Written(SpecBytes(o))
  {
    hide B16, B32, B64, Big;
    Powers();
    var v := Field(o).0;
    Wire32(v % 0x1_0000_0000);
    assert FieldBytes(v, 4) == B32(v % 0x1_0000_0000);
    assert o.SInt32? ==> Neg32(o.s32) == v % 0x1_0000_0000;
    assert !o.SInt32? ==> v == v % 0x1_0000_0000;
    assert o.Ext32? ==> Neg8(o.kind) == o.kind % 0x100;
  }

  lemma EightByteField(o: Object)
    requires Field(o).1 == 8
    ensures WriteObject(o) == Written(SpecBytes(o))
  {
    hide B16, B32, B64, Big;
    Powers();
    var v := Field(o).0;
    Wire64(v % 0x1_0000_0000_0000_0000);
    assert FieldBytes(v, 8) == B64(v % 0x1_0000_0000_0000_0000);
    assert o.SInt64? ==> Neg64(o.s64) == v % 0x1_0000_0000_0000_0000;
    assert !o.SInt64? ==> v == v % 0x1_0000_0000_0000_0000;
  }

  /** Bytes in the length field of a bin or ext header. */
  function LengthWidth(first: byte): nat
    requires 0xC4 <= first <= 0xC9
  {
    if first in {0xC4, 0xC7} then 1 else if first in {0xC5, 0xC8} then 2 else 4
  }

  /** Which error a read that fails leaves behind. */
  function ErrorOf(s: seq<byte>): Error {
    if |s| == 0 then TypeMarkerReading
    else if s[0] == 0xC1 then InvalidType
    else if 0xC4 <= s[0] <= 0xC9 then if |s| - 1 < LengthWidth(s[0]) then LengthReading else ExtTypeReading
    else if 0xD4 <= s[0] <= 0xD8 then ExtTypeReading
    else DataReading
  }

  /** A failed read reports what it could not read, and has consumed the first byte and, if it
      was the ext type that was missing, the length before it. */
  lemma ErrorsFollowTable(s: seq<byte>)
    requires ReadObject(s).Failed?
    ensures ReadObject(s).error == ErrorOf(s)
    ensures ReadObject(s).rest ==
              if |s| == 0 then [] else if 0xC7 <= s[0] <= 0xC9 && ErrorOf(s).ExtTypeReading? then s[1 + LengthWidth(s[0])..]
              else s[1..]
  {
    hide U16, U32, U64;
  }
}
