/** The codec context: a stream and the last error. Writers append what the header functions
    of `Msgpack` prescribe; readers consume the stream as its reading functions say. */
module Cmp {
  import opened Bytes
  import opened BigEndian
  import opened Msgpack
  import opened MsgpackIntegers
  import opened Options
  import MsgpackTree
  import NnStr

  class Context {
    var error: Option<Error>
    const str: NnStr.Buffer

    constructor (str: NnStr.Buffer)
      ensures this.str == str && error == None
    {
      this.str := str;
      error := None;
    }

    /** The first allocation holds at least 8 bytes, so one doubling always suffices. */
    ghost predicate Roomy()
      reads this, str, str.buf
    {
      str.Valid() && str.usable >= 8 && (str.buf != null ==> str.size >= 8)
    }

    // ----- Writing -----

    /** One call of the stream's writer, for at most eight bytes. */
    method Put(data: seq<byte>) returns (ok: bool)
      requires Roomy() && 0 < |data| <= 8
      modifies str, str.buf
      ensures Roomy() && (str.buf == old(str.buf) || fresh(str.buf)) && str.buf != null
      ensures ok && str.Contents() == old(str.Contents()) + data
    {
      var n := str.Write(data);
      ok := n == |data|;
    }

    /** `write_type_marker` or `write_fixed_value`. */
    method PutMarker(marker: byte) returns (ok: bool)
      requires Roomy()
      modifies this`error, str, str.buf
      ensures Roomy() && (str.buf == old(str.buf) || fresh(str.buf)) && str.buf != null
      ensures ok && error == old(error) && str.Contents() == old(str.Contents()) + [marker]
    {
      ok := Put([marker]);
    }

    /** A marker and a field: the shape of `cmp_write_u16`, `cmp_write_bin16_marker`,
        `cmp_write_array32` and the other sized writers. */
    method PutField(marker: byte, field: seq<byte>) returns (ok: bool)
      requires Roomy() && 0 < |field| <= 8
      modifies this`error, str, str.buf
      ensures Roomy() && (str.buf == old(str.buf) || fresh(str.buf)) && str.buf != null
      ensures ok && error == old(error) && str.Contents() == old(str.Contents()) + ([marker] + field)
    {
      ok := PutMarker(marker);
      ok := Put(field);
    }

    /** `cmp_write_ext8_marker`, `cmp_write_ext16_marker`, `cmp_write_ext32_marker`. */
    method PutExt(marker: byte, size: seq<byte>, kind: int8) returns (ok: bool)
      requires Roomy() && 0 < |size| <= 8
      modifies this`error, str, str.buf
      ensures Roomy() && (str.buf == old(str.buf) || fresh(str.buf)) && str.buf != null
      ensures ok && error == old(error) && str.Contents() == old(str.Contents()) + ([marker] + size + [Neg8(kind)])
    {
      ok := PutField(marker, size);
      ok := Put([Neg8(kind)]);
    }

    /** A count packed into the marker byte, or an error if it does not fit. */
    method PutFixed(marker: byte, limit: byte, n: uint32) returns (ok: bool)
      requires Roomy() && marker + limit < 0x100
      modifies this`error, str, str.buf
      ensures Roomy() && (str.buf == old(str.buf) || fresh(str.buf))
      ensures PutResult(ok, WriteFixed(marker, limit, n), error, old(error), str.Contents(), old(str.Contents()))
    {
      var m := n % 0x100;
      if m <= limit {
        ok := PutMarker(marker + m);
      } else {
        error := Some(InputValueTooLarge);
        ok := false;
      }
    }

    /** The outcome of a writer against the header it should write. */
    static ghost predicate PutResult(ok: bool, w: WriteResult, e: Option<Error>, e0: Option<Error>,
                                     s: seq<byte>, s0: seq<byte>)
    {
      match w
      case Written(b) => ok && s == s0 + b && e == e0
      case Rejected(x) => !ok && s == s0 && e == Some(x)
    }

    /** `cmp_write_uinteger`. */
    method WriteUinteger(u: uint64) returns (ok: bool)
      requires Roomy()
      modifies this`error, str, str.buf
      ensures Roomy() && (str.buf == old(str.buf) || fresh(str.buf)) && str.buf != null
      ensures ok && error == old(error) && str.Contents() == old(str.Contents()) + IntBytes(u)
    {
      hide B16, B32, B64;
      if u <= 0x7F {
        ok := PutMarker(u);
      } else if u <= 0xFF {
        ok := PutField(0xCC, [u]);
        assert [0xCC] + [u] == IntBytes(u);
      } else if u <= 0xFFFF {
        ok := PutField(0xCD, B16(u));
      } else if u <= 0xFFFFFFFF {
        ok := PutField(0xCE, B32(u));
      } else {
        ok := PutField(0xCF, B64(u));
      }
    }

    /** `cmp_write_integer`. */
    method WriteInteger(d: int64) returns (ok: bool)
      requires Roomy()
      modifies this`error, str, str.buf
      ensures Roomy() && (str.buf == old(str.buf) || fresh(str.buf)) && str.buf != null
      ensures ok && error == old(error) && str.Contents() == old(str.Contents()) + IntBytes(d)
    {
      hide B16, B32, B64;
      if d >= 0 {
        ok := WriteUinteger(d);
      } else if d >= -32 {
        ok := PutMarker(Neg8(d));
      } else if d >= -128 {
        ok := PutField(0xD0, [Neg8(d)]);
        assert [0xD0] + [Neg8(d)] == IntBytes(d);
      } else if d >= -32768 {
        ok := PutField(0xD1, B16(Neg16(d)));
      } else if d >= -2147483648 {
        ok := PutField(0xD2, B32(Neg32(d)));
      } else {
        ok := PutField(0xD3, B64(Neg64(d)));
      }
    }

    /** `cmp_write_array`. */
    method WriteArray(n: uint32) returns (ok: bool)
      requires Roomy()
      modifies this`error, str, str.buf
      ensures Roomy() && (str.buf == old(str.buf) || fresh(str.buf)) && str.buf != null
      ensures WriteObject(MsgpackTree.ArrayHeader(n)).Written?
      ensures ok && error == old(error)
      ensures str.Contents() == old(str.Contents()) + WriteObject(MsgpackTree.ArrayHeader(n)).bytes
    {
      hide B16, B32, B64;
      if n <= 0xF {
        ok := PutMarker(0x90 + n);
      } else if n <= 0xFFFF {
        ok := PutField(0xDC, B16(n));
      } else {
        ok := PutField(0xDD, B32(n));
      }
    }

    /** `cmp_write_object`. */
    method WriteHeader(o: Object) returns (ok: bool)
      requires Roomy()
      modifies this`error, str, str.buf
      ensures Roomy() && (str.buf == old(str.buf) || fresh(str.buf))
      ensures PutResult(ok, WriteObject(o), error, old(error), str.Contents(), old(str.Contents()))
    {
      if o.Nil? {
        ok := PutMarker(0xC0);
      } else if o.Boolean? {
        ok := PutMarker(if o.flag then 0xC3 else 0xC2);
      } else if o.PositiveFixnum? || o.NegativeFixnum? || o.FixMap? || o.FixArray? || o.FixStr? {
        ok := WriteFixHeader(o);
      } else if IsFloat(o) || IsUnsigned(o) {
        ok := WriteUnsignedHeader(o);
      } else if IsSigned(o) {
        ok := WriteSignedHeader(o);
      } else if IsLongExt(o) {
        ok := WriteExtHeader(o);
      } else if o.FixExt1? || o.FixExt2? || o.FixExt4? || o.FixExt8? || o.FixExt16? {
        ok := WriteFixExtHeader(o);
      } else if o.Array16? || o.Array32? || o.Map16? || o.Map32? {
        ok := WriteContainerHeader(o);
      } else {
        ok := WriteDataHeader(o);
      }
    }

    /** The formats that fit one byte. */
    method WriteFixHeader(o: Object) returns (ok: bool)
      requires Roomy() && (o.PositiveFixnum? || o.NegativeFixnum? || o.FixMap? || o.FixArray? || o.FixStr?)
      modifies this`error, str, str.buf
      ensures Roomy() && (str.buf == old(str.buf) || fresh(str.buf))
      ensures PutResult(ok, WriteObject(o), error, old(error), str.Contents(), old(str.Contents()))
    {
      match o {
        case PositiveFixnum(c) =>
          if c <= 0x7F {
            ok := PutMarker(c);
          } else {
            error := Some(InputValueTooLarge);
            ok := false;
          }
        case NegativeFixnum(c) =>
          if -32 <= c <= -1 {
            ok := PutMarker(Neg8(c));
          } else {
            error := Some(InputValueTooLarge);
            ok := false;
          }
        case FixMap(n) => ok := PutFixed(0x80, 0xF, n);
        case FixArray(n) => ok := PutFixed(0x90, 0xF, n);
        case FixStr(n) => ok := PutFixed(0xA0, 0x1F, n);
      }
    }

    /** `cmp_write_u8` to `cmp_write_u64`, `cmp_write_float`, `cmp_write_double`. */
    method WriteUnsignedHeader(o: Object) returns (ok: bool)
      requires Roomy() && (IsFloat(o) || IsUnsigned(o))
      modifies this`error, str, str.buf
      ensures Roomy() && (str.buf == old(str.buf) || fresh(str.buf))
      ensures PutResult(ok, WriteObject(o), error, old(error), str.Contents(), old(str.Contents()))
    {
      hide B16, B32, B64;
      match o {
        case Float(f) => ok := PutField(0xCA, B32(f));
        case Double(d) => ok := PutField(0xCB, B64(d));
        case UInt8(u) => ok := PutField(0xCC, [u]);
        case UInt16(u) => ok := PutField(0xCD, B16(u));
        case UInt32(u) => ok := PutField(0xCE, B32(u));
        case UInt64(u) => ok := PutField(0xCF, B64(u));
      }
    }

    /** `cmp_write_s8` to `cmp_write_s64`. */
    method WriteSignedHeader(o: Object) returns (ok: bool)
      requires Roomy() && IsSigned(o)
      modifies this`error, str, str.buf
      ensures Roomy() && (str.buf == old(str.buf) || fresh(str.buf))
      ensures PutResult(ok, WriteObject(o), error, old(error), str.Contents(), old(str.Contents()))
    {
      hide B16, B32, B64;
      match o {
        case SInt8(i) => ok := PutField(0xD0, [Neg8(i)]);
        case SInt16(i) => ok := PutField(0xD1, B16(Neg16(i)));
        case SInt32(i) => ok := PutField(0xD2, B32(Neg32(i)));
        case SInt64(i) => ok := PutField(0xD3, B64(Neg64(i)));
      }
    }

    /** The ext headers with a length field. */
    method WriteExtHeader(o: Object) returns (ok: bool)
      requires Roomy() && IsLongExt(o)
      modifies this`error, str, str.buf
      ensures Roomy() && (str.buf == old(str.buf) || fresh(str.buf))
      ensures PutResult(ok, WriteObject(o), error, old(error), str.Contents(), old(str.Contents()))
    {
      hide B16, B32, B64;
      match o {
        case Ext8(t, n) => ok := PutExt(0xC7, [n % 0x100], t);
        case Ext16(t, n) => ok := PutExt(0xC8, B16(n % 0x1_0000), t);
        case Ext32(t, n) => ok := PutExt(0xC9, B32(n), t);
      }
    }

    /** The ext headers of fixed length. */
    method WriteFixExtHeader(o: Object) returns (ok: bool)
      requires Roomy() && (o.FixExt1? || o.FixExt2? || o.FixExt4? || o.FixExt8? || o.FixExt16?)
      modifies this`error, str, str.buf
      ensures Roomy() && (str.buf == old(str.buf) || fresh(str.buf))
      ensures PutResult(ok, WriteObject(o), error, old(error), str.Contents(), old(str.Contents()))
    {
      hide B16, B32, B64;
      match o {
        case FixExt1(t, _) => ok := PutField(0xD4, [Neg8(t)]);
        case FixExt2(t, _) => ok := PutField(0xD5, [Neg8(t)]);
        case FixExt4(t, _) => ok := PutField(0xD6, [Neg8(t)]);
        case FixExt8(t, _) => ok := PutField(0xD7, [Neg8(t)]);
        case FixExt16(t, _) => ok := PutField(0xD8, [Neg8(t)]);
      }
    }

    /** The bin and str headers with a length field. */
    method WriteDataHeader(o: Object) returns (ok: bool)
      requires Roomy() && (o.Bin8? || o.Bin16? || o.Bin32? || o.Str8? || o.Str16? || o.Str32?)
      modifies this`error, str, str.buf
      ensures Roomy() && (str.buf == old(str.buf) || fresh(str.buf))
      ensures PutResult(ok, WriteObject(o), error, old(error), str.Contents(), old(str.Contents()))
    {
      hide B16, B32, B64;
      match o {
        case Bin8(n) => ok := PutField(0xC4, [n % 0x100]);
        case Bin16(n) => ok := PutField(0xC5, B16(n % 0x1_0000));
        case Bin32(n) => ok := PutField(0xC6, B32(n));
        case Str8(n) => ok := PutField(0xD9, [n % 0x100]);
        case Str16(n) => ok := PutField(0xDA, B16(n % 0x1_0000));
        case Str32(n) => ok := PutField(0xDB, B32(n));
      }
    }

    /** The array and map headers with a count field. */
    method WriteContainerHeader(o: Object) returns (ok: bool)
      requires Roomy() && (o.Array16? || o.Array32? || o.Map16? || o.Map32?)
      modifies this`error, str, str.buf
      ensures Roomy() && (str.buf == old(str.buf) || fresh(str.buf))
      ensures PutResult(ok, WriteObject(o), error, old(error), str.Contents(), old(str.Contents()))
    {
      hide B16, B32, B64;
      match o {
        case Array16(n) => ok := PutField(0xDC, B16(n % 0x1_0000));
        case Array32(n) => ok := PutField(0xDD, B32(n));
        case Map16(n) => ok := PutField(0xDE, B16(n % 0x1_0000));
        case Map32(n) => ok := PutField(0xDF, B32(n));
      }
    }

    // ----- Reading -----

    ghost predicate Readable()
      reads this, str, str.buf
    {
      str.Valid() && str.buf != null
    }

    /** The stream and the error after a read that should end as `r`. */
    static ghost predicate Reads(ok: bool, o: Object, r: ReadResult, e: Option<Error>, e0: Option<Error>, rest: seq<byte>) {
      match r
      case Got(x, t) => ok && o == x && rest == t && e == e0
      case Failed(x, t) => !ok && rest == t && e == Some(x)
    }

    /** `cmp_read_object`. */
    method ReadHeader() returns (ok: bool, o: Object)
      requires Readable()
      modifies this`error, str`pos
      ensures Readable() && Reads(ok, o, ReadObject(old(str.Remaining())), error, old(error), str.Remaining())
    {
      hide ReadBinOrExt, ReadNumber, ReadFixExt, ReadCount;
      o := Nil;
      var data;
      ok, data := str.Read(1);
      if !ok {
        error := Some(TypeMarkerReading);
        return;
      }
      var m := data[0];
      if m <= 0x7F {
        o := PositiveFixnum(m);
      } else if m <= 0x8F {
        o := FixMap(m - 0x80);
      } else if m <= 0x9F {
        o := FixArray(m - 0x90);
      } else if m <= 0xBF {
        o := FixStr(m - 0xA0);
      } else if m == 0xC0 {
        o := Nil;
      } else if m == 0xC2 {
        o := Boolean(false);
      } else if m == 0xC3 {
        o := Boolean(true);
      } else if m <= 0xC9 {
        ok, o := ReadBinOrExtBody(m);
      } else if m <= 0xD3 {
        ok, o := ReadNumberBody(m);
      } else if m <= 0xD8 {
        ok, o := ReadFixExtBody(m);
      } else if m <= 0xDF {
        ok, o := ReadCountBody(m);
      } else {
        o := NegativeFixnum(Sign8(m));
      }
    }

    method ReadBinOrExtBody(m: byte) returns (ok: bool, o: Object)
      requires Readable() && (m == 0xC1 || 0xC4 <= m <= 0xC9)
      modifies this`error, str`pos
      ensures Readable() && Reads(ok, o, ReadBinOrExt(m, old(str.Remaining())), error, old(error), str.Remaining())
    {
      hide U16, U32, U64;
      o := Nil;
      FieldPrefix(str.Remaining());
      if m == 0xC1 {
        error := Some(InvalidType);
        return false, o;
      }
      if m >= 0xC7 {
        ok, o := ReadExtBody(m);
        return;
      }
      var data;
      ok, data := str.Read(if m == 0xC4 then 1 else if m == 0xC5 then 2 else 4);
      if !ok {
        error := Some(LengthReading);
        return;
      }
      o := if m == 0xC4 then Bin8(data[0]) else if m == 0xC5 then Bin16(U16(data)) else Bin32(U32(data));
    }

    method ReadExtBody(m: byte) returns (ok: bool, o: Object)
      requires Readable() && 0xC7 <= m <= 0xC9
      modifies this`error, str`pos
      ensures Readable() && Reads(ok, o, ReadBinOrExt(m, old(str.Remaining())), error, old(error), str.Remaining())
    {
      hide U16, U32, U64;
      o := Nil;
      FieldPrefix(str.Remaining());
      var size, kind;
      ok, size := str.Read(if m == 0xC7 then 1 else if m == 0xC8 then 2 else 4);
      if !ok {
        error := Some(LengthReading);
        return;
      }
      ok, kind := str.Read(1);
      if !ok {
        error := Some(ExtTypeReading);
        return;
      }
      var t := Sign8(kind[0]);
      o := if m == 0xC7 then Ext8(t, size[0]) else if m == 0xC8 then Ext16(t, U16(size)) else Ext32(t, U32(size));
    }

    method ReadNumberBody(m: byte) returns (ok: bool, o: Object)
      requires Readable() && 0xCA <= m <= 0xD3
      modifies this`error, str`pos
      ensures Readable() && Reads(ok, o, ReadNumber(m, old(str.Remaining())), error, old(error), str.Remaining())
    {
      hide U16, U32, U64;
      o := Nil;
      FieldPrefix(str.Remaining());
      var data;
      ok, data := str.Read(NumberWidth(m));
      if !ok {
        error := Some(DataReading);
        return;
      }
      if m == 0xCA {
        o := Float(U32(data));
      } else if m == 0xCB {
        o := Double(U64(data));
      } else if m == 0xCC {
        o := UInt8(data[0]);
      } else if m == 0xCD {
        o := UInt16(U16(data));
      } else if m == 0xCE {
        o := UInt32(U32(data));
      } else if m == 0xCF {
        o := UInt64(U64(data));
      } else if m == 0xD0 {
        o := SInt8(Sign8(data[0]));
      } else if m == 0xD1 {
        o := SInt16(Sign16(U16(data)));
      } else if m == 0xD2 {
        o := SInt32(Sign32(U32(data)));
      } else {
        o := SInt64(Sign64(U64(data)));
      }
    }

    method ReadFixExtBody(m: byte) returns (ok: bool, o: Object)
      requires Readable() && 0xD4 <= m <= 0xD8
      modifies this`error, str`pos
      ensures Readable() && Reads(ok, o, ReadFixExt(m, old(str.Remaining())), error, old(error), str.Remaining())
    {
      o := Nil;
      var data;
      ok, data := str.Read(1);
      if !ok {
        error := Some(ExtTypeReading);
        return;
      }
      var t := Sign8(data[0]);
      o := if m == 0xD4 then FixExt1(t, 1)
           else if m == 0xD5 then FixExt2(t, 2)
           else if m == 0xD6 then FixExt4(t, 4)
           else if m == 0xD7 then FixExt8(t, 8)
           else FixExt16(t, 16);
    }

    method ReadCountBody(m: byte) returns (ok: bool, o: Object)
      requires Readable() && 0xD9 <= m <= 0xDF
      modifies this`error, str`pos
      ensures Readable() && Reads(ok, o, ReadCount(m, old(str.Remaining())), error, old(error), str.Remaining())
    {
      hide U16, U32, U64;
      o := Nil;
      FieldPrefix(str.Remaining());
      var n := if m == 0xD9 then 1 else if m == 0xDA || m == 0xDC || m == 0xDE then 2 else 4;
      var data;
      ok, data := str.Read(n);
      if !ok {
        error := Some(DataReading);
        return;
      }
      var size: uint32 := if n == 1 then data[0] else if n == 2 then U16(data) else U32(data);
      o := if m == 0xD9 then Str8(size)
           else if m == 0xDA then Str16(size)
           else if m == 0xDB then Str32(size)
           else if m == 0xDC then Array16(size)
           else if m == 0xDD then Array32(size)
           else if m == 0xDE then Map16(size)
           else Map32(size);
    }

    /** `cmp_read_char`, `cmp_read_short`, `cmp_read_int`, `cmp_read_long` and their unsigned
        counterparts: they agree with `cmp_read_object` followed by `cmp_object_as_*`. */
    method ReadTyped(t: CType) returns (ok: bool, v: int)
      requires Readable()
      modifies this`error, str`pos
      ensures Readable()
      ensures match ReadInt(t, old(str.Remaining()))
              case Value(x, rest) => ok && v == x && str.Remaining() == rest && error == old(error)
              case NoValue(e, rest) => !ok && str.Remaining() == rest && error == Some(e)
    {
      hide ReadObject, As;
      var o;
      v := 0;
      ok, o := ReadHeader();
      if !ok {
        return;
      }
      if UnsignedType(t) {
        ok, v := UnsignedCases(t, o);
      } else {
        ok, v := SignedCases(t, o);
      }
      if !ok {
        error := Some(InvalidType);
      }
    }

    /** The case lists of the signed readers. Each one extends the list of the next narrower
        reader and checks the range of the unsigned format of its own width. */
    static method SignedCases(t: CType, o: Object) returns (ok: bool, v: int)
      requires !UnsignedType(t)
      ensures As(t, o) == if ok then Some(v) else None
    {
      match o {
        case PositiveFixnum(c) => return true, Sign8(c);
        case NegativeFixnum(c) => return true, c;
        case SInt8(c) => return true, c;
        case UInt8(u) => return !t.Char? || u <= 127, u;
        case SInt16(i) => return !t.Char?, i;
        case UInt16(u) => return if t.Short? then u <= 32767 else !t.Char?, u;
        case SInt32(i) => return t.Int? || t.Long?, i;
        case UInt32(u) => return if t.Int? then u <= 2147483647 else t.Long?, u;
        case SInt64(i) => return t.Long?, i;
        case UInt64(u) => return t.Long? && u <= 9223372036854775807, u;
        case _ => return false, 0;
      }
    }

    /** The case lists of the unsigned readers. */
    static method UnsignedCases(t: CType, o: Object) returns (ok: bool, v: int)
      requires UnsignedType(t)
      ensures As(t, o) == if ok then Some(v) else None
    {
      match o {
        case PositiveFixnum(c) => return true, c;
        case UInt8(u) => return true, u;
        case UInt16(u) => return !t.UChar?, u;
        case UInt32(u) => return t.UInt? || t.ULong?, u;
        case UInt64(u) => return t.ULong?, u;
        case _ => return false, 0;
      }
    }

    /** `cmp_read_array`. */
    method ReadArray() returns (ok: bool, n: uint32)
      requires Readable()
      modifies this`error, str`pos
      ensures Readable()
      ensures match ReadObject(old(str.Remaining()))
              case Failed(e, rest) => !ok && str.Remaining() == rest && error == Some(e)
              case Got(o, rest) =>
                && str.Remaining() == rest
                && (if o.FixArray? || o.Array16? || o.Array32? then ok && n == o.size && error == old(error)
                    else !ok && error == Some(InvalidType))
    {
      hide ReadObject;
      var o;
      n := 0;
      ok, o := ReadHeader();
      if !ok {
        return;
      }
      if o.FixArray? || o.Array16? || o.Array32? {
        n := o.size;
      } else {
        error := Some(InvalidType);
        ok := false;
      }
    }
  }
}
