/** Integers: the width-selecting writers and the eight typed readers. */
module MsgpackIntegers {
  import opened Bytes
  import opened BigEndian
  import opened Msgpack
  import opened Options

  /** The object that `cmp_write_uinteger` writes. */
  function ChooseUint(u: uint64): Object {
    if u <= 0x7F then PositiveFixnum(u)
    else if u <= 0xFF then UInt8(u)
    else if u <= 0xFFFF then UInt16(u)
    else if u <= 0xFFFFFFFF then UInt32(u)
    else UInt64(u)
  }

  /** The object that `cmp_write_integer` writes. */
  function ChooseInt(d: int64): Object {
    if d >= 0 then ChooseUint(d)
    else if d >= -32 then NegativeFixnum(d)
    else if d >= -128 then SInt8(d)
    else if d >= -32768 then SInt16(d)
    else if d >= -2147483648 then SInt32(d)
    else SInt64(d)
  }

  predicate Writable(v: int) {
    -0x8000_0000_0000_0000 <= v < 0x1_0000_0000_0000_0000
  }

  /** `cmp_write_integer` for negative numbers, `cmp_write_uinteger` for the others. */
  function Choose(v: int): (o: Object)
    requires Writable(v)
    ensures WellFormed(o)
  {
    if v < 0 then ChooseInt(v) else ChooseUint(v)
  }

  lemma WellFormedWrites(o: Object)
    requires WellFormed(o)
    ensures WriteObject(o).Written?
  {
  }

  function IntBytes(v: int): seq<byte>
    requires Writable(v)
  {
    WellFormedWrites(Choose(v));
    WriteObject(Choose(v)).bytes
  }

  /** The number that an integer header stands for. */
  function IntValue(o: Object): Option<int> {
    match o
    case PositiveFixnum(c) => Some(c)
    case NegativeFixnum(c) => Some(c)
    case UInt8(u) => Some(u)
    case UInt16(u) => Some(u)
    case UInt32(u) => Some(u)
    case UInt64(u) => Some(u)
    case SInt8(i) => Some(i)
    case SInt16(i) => Some(i)
    case SInt32(i) => Some(i)
    case SInt64(i) => Some(i)
    case _ => None
  }

  datatype CType = Char | Short | Int | Long | UChar | UShort | UInt | ULong

  function AsChar(o: Object): Option<int> {
    match o
    case PositiveFixnum(c) => Some(Sign8(c))
    case NegativeFixnum(c) => Some(c)
    case SInt8(c) => Some(c)
    case UInt8(u) => if u <= 127 then Some(u) else None
    case _ => None
  }

  function AsShort(o: Object): Option<int> {
    match o
    case PositiveFixnum(c) => Some(Sign8(c))
    case NegativeFixnum(c) => Some(c)
    case SInt8(c) => Some(c)
    case UInt8(u) => Some(u)
    case SInt16(i) => Some(i)
    case UInt16(u) => if u <= 32767 then Some(u) else None
    case _ => None
  }

  function AsInt(o: Object): Option<int> {
    match o
    case PositiveFixnum(c) => Some(Sign8(c))
    case NegativeFixnum(c) => Some(c)
    case SInt8(c) => Some(c)
    case UInt8(u) => Some(u)
    case SInt16(i) => Some(i)
    case UInt16(u) => Some(u)
    case SInt32(i) => Some(i)
    case UInt32(u) => if u <= 2147483647 then Some(u) else None
    case _ => None
  }

  function AsLong(o: Object): Option<int> {
    match o
    case PositiveFixnum(c) => Some(Sign8(c))
    case NegativeFixnum(c) => Some(c)
    case SInt8(c) => Some(c)
    case UInt8(u) => Some(u)
    case SInt16(i) => Some(i)
    case UInt16(u) => Some(u)
    case SInt32(i) => Some(i)
    case UInt32(u) => Some(u)
    case SInt64(i) => Some(i)
    case UInt64(u) => if u <= 9223372036854775807 then Some(u) else None
    case _ => None
  }

  function AsUChar(o: Object): Option<int> {
    match o
    case PositiveFixnum(c) => Some(c)
    case UInt8(u) => Some(u)
    case _ => None
  }

  function AsUShort(o: Object): Option<int> {
    match o
    case PositiveFixnum(c) => Some(c)
    case UInt8(u) => Some(u)
    case UInt16(u) => Some(u)
    case _ => None
  }

  function AsUInt(o: Object): Option<int> {
    match o
    case PositiveFixnum(c) => Some(c)
    case UInt8(u) => Some(u)
    case UInt16(u) => Some(u)
    case UInt32(u) => Some(u)
    case _ => None
  }

  function AsULong(o: Object): Option<int> {
    match o
    case PositiveFixnum(c) => Some(c)
    case UInt8(u) => Some(u)
    case UInt16(u) => Some(u)
    case UInt32(u) => Some(u)
    case UInt64(u) => Some(u)
    case _ => None
  }

  /** `cmp_object_as_char` to `cmp_object_as_ulong`; the readers `cmp_read_char` to
      `cmp_read_ulong` go through the same case lists. */
  function As(t: CType, o: Object): Option<int> {
    match t
    case Char => AsChar(o)
    case Short => AsShort(o)
    case Int => AsInt(o)
    case Long => AsLong(o)
    case UChar => AsUChar(o)
    case UShort => AsUShort(o)
    case UInt => AsUInt(o)
    case ULong => AsULong(o)
  }

  function TypeWidth(t: CType): nat {
    match t
    case Char => 1 case UChar => 1
    case Short => 2 case UShort => 2
    case Int => 4 case UInt => 4
    case Long => 8 case ULong => 8
  }

  predicate UnsignedType(t: CType) {
    t.UChar? || t.UShort? || t.UInt? || t.ULong?
  }

  function Limit(t: CType): int {
    match TypeWidth(t)
    case 1 => 0x100
    case 2 => 0x1_0000
    case 4 => 0x1_0000_0000
    case _ => 0x1_0000_0000_0000_0000
  }

  predicate InRange(t: CType, v: int) {
    if UnsignedType(t) then 0 <= v < Limit(t) else -Limit(t) <= 2 * v < Limit(t)
  }

  function FieldWidth(o: Object): nat {
    match o
    case UInt16(_) => 2 case SInt16(_) => 2
    case UInt32(_) => 4 case SInt32(_) => 4
    case UInt64(_) => 8 case SInt64(_) => 8
    case _ => 1
  }

  predicate SignedForm(o: Object) {
    o.NegativeFixnum? || IsSigned(o)
  }

  /** When a typed reader accepts: the value fits the type, the field is no wider than the
      type, and an unsigned reader is not given a signed format. */
  lemma AcceptsIff(t: CType, o: Object, v: int)
    requires WellFormed(o)
    ensures As(t, o) == Some(v) <==>
              && IntValue(o) == Some(v) && InRange(t, v)
              && FieldWidth(o) <= TypeWidth(t) && (UnsignedType(t) ==> !SignedForm(o))
  {
  }

  datatype IntResult = Value(v: int, rest: seq<byte>) | NoValue(error: Error, rest: seq<byte>)

  /** `cmp_read_char` to `cmp_read_ulong` on the bytes that remain in the stream. */
  function ReadInt(t: CType, s: seq<byte>): IntResult {
    IntOf(t, ReadObject(s))
  }

  function IntOf(t: CType, r: ReadResult): IntResult {
    match r
    case Failed(e, rest) => NoValue(e, rest)
    case Got(o, rest) => if As(t, o).Some? then Value(As(t, o).value, rest) else NoValue(InvalidType, rest)
  }

  /** On what the writers write, each reader succeeds exactly when the number fits its type,
      and returns that number. */
  lemma IntegerExactness(t: CType, v: int, rest: seq<byte>)
    requires Writable(v)
    ensures ReadInt(t, IntBytes(v) + rest) == if InRange(t, v) then Value(v, rest) else NoValue(InvalidType, rest)
  {
    var o := Choose(v);
    WriteThenRead(o, rest);
    if As(t, o).Some? {
      AcceptsIff(t, o, As(t, o).value);
    }
    AcceptsIff(t, o, v);
    ChosenFits(t, v);
  }

  lemma ChosenFits(t: CType, v: int)
    requires Writable(v)
    ensures IntValue(Choose(v)) == Some(v)
    ensures InRange(t, v) ==> FieldWidth(Choose(v)) <= TypeWidth(t)
    ensures v >= 0 ==> !SignedForm(Choose(v))
  {
  }

  function IntLength(o: Object): nat {
    if o.PositiveFixnum? || o.NegativeFixnum? then 1 else 1 + FieldWidth(o)
  }

  lemma LengthOfInt(o: Object)
    requires WellFormed(o) && IntValue(o).Some?
    ensures WriteObject(o).Written? && |WriteObject(o).bytes| == IntLength(o)
  {
  }

  lemma ChosenLength(o: Object, v: int)
    requires WellFormed(o) && IntValue(o) == Some(v)
    ensures Writable(v) && IntValue(Choose(v)) == Some(v) && IntLength(Choose(v)) <= IntLength(o)
  {
  }

  /** No encoding of a number is shorter than the one the writers choose. */
  lemma ChosenIsShortest(o: Object, v: int)
    requires WellFormed(o) && IntValue(o) == Some(v)
    ensures Writable(v) && WriteObject(o).Written? && |IntBytes(v)| <= |WriteObject(o).bytes|
  {
    ChosenLength(o, v);
    LengthOfInt(o);
    LengthOfInt(Choose(v));
  }

  /** The shortest form of an integer, as the specification lays it out. */
  function SpecInt(v: int): seq<byte>
    requires Writable(v)
  {
    if 0 <= v <= 0x7F then [v]
    else if -0x20 <= v < 0 then [v + 0x100]
    else if 0 <= v <= 0xFF then [0xCC] + Big(v, 1)
    else if 0 <= v <= 0xFFFF then [0xCD] + Big(v, 2)
    else if 0 <= v <= 0xFFFF_FFFF then [0xCE] + Big(v, 4)
    else if 0 <= v then [0xCF] + Big(v, 8)
    else if -0x80 <= v then [0xD0] + Big(v + 0x100, 1)
    else if -0x8000 <= v then [0xD1] + Big(v + 0x1_0000, 2)
    else if -0x8000_0000 <= v then [0xD2] + Big(v + 0x1_0000_0000, 4)
    else [0xD3] + Big(v + 0x1_0000_0000_0000_0000, 8)
  }

  lemma IntOnWire(v: int)
    requires Writable(v)
    ensures IntBytes(v) == SpecInt(v)
  {
    hide WriteObject, Big;
    Powers();
    var o := Choose(v);
    WriterFollowsTable(o);
    WellFormedWrites(o);
    assert FieldBytes(0, 0) == [] by { BigNone(); }
  }

  lemma BigNone()
    ensures FieldBytes(0, 0) == []
  {
  }
}
