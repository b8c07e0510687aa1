/** Nested values: written with the size-selecting writers, read back header by header. */
module MsgpackTree {
  import opened Bytes
  import opened BigEndian
  import opened Msgpack
  import opened MsgpackIntegers

  datatype Value =
    | VNil
    | VBool(flag: bool)
    | VInt(i: int)
    | VStr(text: seq<byte>)
    | VBin(data: seq<byte>)
    | VExt(kind: int8, data: seq<byte>)
    | VArray(items: seq<Value>)
    | VMap(items: seq<Value>)   // keys and values in turn

  /** What the writers can write and the readers can hold. A string of 0xFFFFFFFF bytes is
      excluded because `cmp_read_str` computes its size plus one in 32 bits, and an empty ext
      because `cmp_write_ext8` takes the writer's returned 0 for a failure. */
  predicate Fits(v: Value)
    decreases v, 1
  {
    match v
    case VNil => true
    case VBool(_) => true
    case VInt(i) => Writable(i)
    case VStr(t) => |t| < 0xFFFFFFFF
    case VBin(d) => |d| <= 0xFFFFFFFF
    case VExt(_, d) => 0 < |d| <= 0xFFFFFFFF
    case VArray(vs) => |vs| <= 0xFFFFFFFF && AllFit(vs)
    case VMap(vs) => |vs| % 2 == 0 && |vs| / 2 <= 0xFFFFFFFF && AllFit(vs)
  }

  predicate AllFit(vs: seq<Value>)
    decreases vs, 0
  {
    |vs| > 0 ==> Fits(vs[0]) && AllFit(vs[1..])
  }

  function StrHeader(n: uint32): Object {
    if n <= 0x1F then FixStr(n) else if n <= 0xFF then Str8(n) else if n <= 0xFFFF then Str16(n) else Str32(n)
  }

  function BinHeader(n: uint32): Object {
    if n <= 0xFF then Bin8(n) else if n <= 0xFFFF then Bin16(n) else Bin32(n)
  }

  function ArrayHeader(n: uint32): Object {
    if n <= 0xF then FixArray(n) else if n <= 0xFFFF then Array16(n) else Array32(n)
  }

  function MapHeader(n: uint32): Object {
    if n <= 0xF then FixMap(n) else if n <= 0xFFFF then Map16(n) else Map32(n)
  }

  function ExtHeader(t: int8, n: uint32): Object {
    if n == 1 then FixExt1(t, 1)
    else if n == 2 then FixExt2(t, 2)
    else if n == 4 then FixExt4(t, 4)
    else if n == 8 then FixExt8(t, 8)
    else if n == 16 then FixExt16(t, 16)
    else if n <= 0xFF then Ext8(t, n) else if n <= 0xFFFF then Ext16(t, n) else Ext32(t, n)
  }

  /** The header that the writers select for a value. */
  function Header(v: Value): (o: Object)
    requires Fits(v)
    ensures WellFormed(o)
  {
    match v
    case VNil => Nil
    case VBool(b) => Boolean(b)
    case VInt(i) => Choose(i)
    case VStr(t) => StrHeader(|t|)
    case VBin(d) => BinHeader(|d|)
    case VExt(t, d) => ExtHeader(t, |d|)
    case VArray(vs) => ArrayHeader(|vs|)
    case VMap(vs) => MapHeader(|vs| / 2)
  }

  function HeaderBytes(v: Value): seq<byte>
    requires Fits(v)
  {
    WellFormedWrites(Header(v));
    WriteObject(Header(v)).bytes
  }

  function Encode(v: Value): seq<byte>
    requires Fits(v)
    decreases v, 2
  {
    HeaderBytes(v) + Payload(v)
  }

  /** What follows the header. */
  function Payload(v: Value): seq<byte>
    requires Fits(v)
    decreases v, 1
  {
    match v
    case VStr(t) => t
    case VBin(d) => d
    case VExt(_, d) => d
    case VArray(vs) => EncodeAll(vs)
    case VMap(vs) => EncodeAll(vs)
    case _ => []
  }

  function EncodeAll(vs: seq<Value>): seq<byte>
    requires AllFit(vs)
    decreases vs, 0
  {
    if |vs| == 0 then [] else Encode(vs[0]) + EncodeAll(vs[1..])
  }

  /** What a header announces. */
  datatype Content =
    | Scalar(v: Value)
    | Text(n: nat)
    | Binary(n: nat)
    | Extension(t: int8, n: nat)
    | Items(n: nat)
    | Pairs(n: nat)
    | Number      // a floating-point number, not part of this tree

  function ContentOf(o: Object): Content {
    match o
    case Nil => Scalar(VNil)
    case Boolean(b) => Scalar(VBool(b))
    case FixStr(n) => Text(n) case Str8(n) => Text(n) case Str16(n) => Text(n) case Str32(n) => Text(n)
    case Bin8(n) => Binary(n) case Bin16(n) => Binary(n) case Bin32(n) => Binary(n)
    case Ext8(t, n) => Extension(t, n) case Ext16(t, n) => Extension(t, n) case Ext32(t, n) => Extension(t, n)
    case FixExt1(t, n) => Extension(t, n) case FixExt2(t, n) => Extension(t, n) case FixExt4(t, n) => Extension(t, n)
    case FixExt8(t, n) => Extension(t, n) case FixExt16(t, n) => Extension(t, n)
    case FixArray(n) => Items(n) case Array16(n) => Items(n) case Array32(n) => Items(n)
    case FixMap(n) => Pairs(n) case Map16(n) => Pairs(n) case Map32(n) => Pairs(n)
    case _ => if IntValue(o).Some? then Scalar(VInt(IntValue(o).value)) else Number
  }

  datatype Parse<T> = Parsed(v: T, rest: seq<byte>) | Malformed

  function Decode(s: seq<byte>): (p: Parse<Value>)
    ensures p.Parsed? ==> |p.rest| < |s|
    decreases |s|, 1
  {
    var r := ReadObject(s);
    if r.Failed? then Malformed
    else
      ReadConsumes(s);
      DecodeContent(ContentOf(r.obj), r.rest)
  }

  /** Reads what a header announced. */
  function DecodeContent(c: Content, s: seq<byte>): (p: Parse<Value>)
    ensures p.Parsed? ==> |p.rest| <= |s|
    decreases |s|, 3
  {
    match c
    case Scalar(v) => Parsed(v, s)
    case Text(n) => if |s| < n then Malformed else Parsed(VStr(s[..n]), s[n..])
    case Binary(n) => if |s| < n then Malformed else Parsed(VBin(s[..n]), s[n..])
    case Extension(t, n) => if |s| < n then Malformed else Parsed(VExt(t, s[..n]), s[n..])
    case Items(n) => var q := DecodeMany(n, s); if q.Parsed? then Parsed(VArray(q.v), q.rest) else Malformed
    case Pairs(n) => var q := DecodeMany(2 * n, s); if q.Parsed? then Parsed(VMap(q.v), q.rest) else Malformed
    case Number => Malformed
  }

  function DecodeMany(n: nat, s: seq<byte>): (p: Parse<seq<Value>>)
    ensures p.Parsed? ==> |p.v| == n && |p.rest| <= |s|
    decreases |s|, 2
  {
    if n == 0 then Parsed([], s)
    else
      var first := Decode(s);
      if first.Malformed? then Malformed
      else
        var others := DecodeMany(n - 1, first.rest);
        if others.Malformed? then Malformed else Parsed([first.v] + others.v, others.rest)
  }

  lemma ReadConsumes(s: seq<byte>)
    requires ReadObject(s).Got?
    ensures |ReadObject(s).rest| < |s|
  {
  }

  /** What the selected header announces is what the value holds. */
  lemma HeaderContent(v: Value)
    requires Fits(v)
    ensures ContentOf(Header(v)) ==
      match v
      case VStr(t) => Text(|t|)
      case VBin(d) => Binary(|d|)
      case VExt(t, d) => Extension(t, |d|)
      case VArray(vs) => Items(|vs|)
      case VMap(vs) => Pairs(|vs| / 2)
      case _ => Scalar(v)
  {
    if v.VInt? {
      ChosenFits(CType.Long, v.i);
    }
  }

  lemma HeaderReads(v: Value, rest: seq<byte>)
    requires Fits(v)
    ensures ReadObject(HeaderBytes(v) + rest) == Got(Header(v), rest)
  {
    hide ReadBody;
    WriteThenRead(Header(v), rest);
  }

  lemma Regroup(a: seq<byte>, b: seq<byte>, c: seq<byte>)
    ensures a + b + c == a + (b + c)
  {
  }

  lemma DecodeAfterHeader(v: Value, s: seq<byte>)
    requires Fits(v)
    ensures Decode(HeaderBytes(v) + s) == DecodeContent(ContentOf(Header(v)), s)
  {
    hide ReadObject, WriteObject;
    HeaderReads(v, s);
  }

  /** A tree is read back identically from any buffer that starts with its bytes. */
  lemma {:induction false} TreeRoundTrip(v: Value, rest: seq<byte>)
    requires Fits(v)
    ensures Decode(Encode(v) + rest) == Parsed(v, rest)
    decreases v, 2
  {
    hide ReadObject, WriteObject, ContentOf;
    Regroup(HeaderBytes(v), Payload(v), rest);
    DecodeAfterHeader(v, Payload(v) + rest);
    ContentRoundTrip(v, rest);
  }

  lemma {:induction false} ContentRoundTrip(v: Value, rest: seq<byte>)
    requires Fits(v)
    ensures DecodeContent(ContentOf(Header(v)), Payload(v) + rest) == Parsed(v, rest)
    decreases v, 1
  {
    hide ReadObject, WriteObject;
    HeaderContent(v);
    var d := Payload(v);
    assert (d + rest)[..|d|] == d && (d + rest)[|d|..] == rest;
    if v.VArray? {
      ListRoundTrip(v.items, rest);
    } else if v.VMap? {
      ListRoundTrip(v.items, rest);
    }
  }

  lemma {:induction false} ListRoundTrip(vs: seq<Value>, rest: seq<byte>)
    requires AllFit(vs)
    ensures DecodeMany(|vs|, EncodeAll(vs) + rest) == Parsed(vs, rest)
    decreases vs, 0
  {
    hide ReadObject, WriteObject, ContentOf;
    if |vs| == 0 {
      assert EncodeAll(vs) + rest == rest;
    } else {
      var tail := EncodeAll(vs[1..]) + rest;
      Regroup(Encode(vs[0]), EncodeAll(vs[1..]), rest);
      TreeRoundTrip(vs[0], tail);
      ListRoundTrip(vs[1..], rest);
      assert [vs[0]] + vs[1..] == vs;
    }
  }

  // ----- The chosen encoding is the shortest -----

  function HeaderLength(o: Object): nat {
    match o
    case Bin8(_) => 2 case Str8(_) => 2
    case Bin16(_) => 3 case Str16(_) => 3 case Array16(_) => 3 case Map16(_) => 3
    case Bin32(_) => 5 case Str32(_) => 5 case Array32(_) => 5 case Map32(_) => 5
    case Ext8(_, _) => 3 case Ext16(_, _) => 4 case Ext32(_, _) => 6
    case FixExt1(_, _) => 2 case FixExt2(_, _) => 2 case FixExt4(_, _) => 2
    case FixExt8(_, _) => 2 case FixExt16(_, _) => 2
    case Float(_) => 5 case Double(_) => 9
    case _ => if IntValue(o).Some? then IntLength(o) else 1
  }

  lemma LengthOfHeader(o: Object)
    requires WellFormed(o)
    ensures WriteObject(o).Written? && |WriteObject(o).bytes| == HeaderLength(o)
  {
    if IntValue(o).Some? {
      LengthOfInt(o);
    }
  }

  /** Any header that announces the content of `v` is at least as long as the selected one. */
  lemma HeaderIsShortest(o: Object, v: Value)
    requires WellFormed(o) && Fits(v) && ContentOf(o) == ContentOf(Header(v))
    ensures |HeaderBytes(v)| <= HeaderLength(o)
  {
    hide WriteObject;
    LengthOfHeader(Header(v));
    HeaderContent(v);
    if v.VInt? {
      ChosenLength(o, v.i);
    } else {
      SelectedIsShortest(o, v);
    }
  }

  lemma SelectedIsShortest(o: Object, v: Value)
    requires WellFormed(o) && Fits(v) && !v.VInt? && ContentOf(o) == ContentOf(Header(v))
    ensures HeaderLength(Header(v)) <= HeaderLength(o)
  {
    hide ContentOf, HeaderLength, StrHeader, BinHeader, ArrayHeader, MapHeader, ExtHeader;
    HeaderContent(v);
    match v
    case VStr(t) => ShortestData(o, |t|);
    case VBin(d) => ShortestData(o, |d|);
    case VExt(t, d) => ShortestExt(o, t, |d|);
    case VArray(vs) => ShortestContainer(o, |vs|);
    case VMap(vs) => ShortestContainer(o, |vs| / 2);
    case _ => OneByte(v, o);
  }

  lemma ShortestData(o: Object, n: uint32)
    requires WellFormed(o)
    ensures ContentOf(o) == Text(n) ==> HeaderLength(StrHeader(n)) <= HeaderLength(o)
    ensures ContentOf(o) == Binary(n) ==> HeaderLength(BinHeader(n)) <= HeaderLength(o)
  {
  }

  lemma ShortestContainer(o: Object, n: uint32)
    requires WellFormed(o)
    ensures ContentOf(o) == Items(n) ==> HeaderLength(ArrayHeader(n)) <= HeaderLength(o)
    ensures ContentOf(o) == Pairs(n) ==> HeaderLength(MapHeader(n)) <= HeaderLength(o)
  {
  }

  lemma ShortestExt(o: Object, t: int8, n: uint32)
    requires WellFormed(o) && ContentOf(o) == Extension(t, n)
    ensures HeaderLength(ExtHeader(t, n)) <= HeaderLength(o)
  {
  }

  lemma OneByte(v: Value, o: Object)
    requires v.VNil? || v.VBool?
    ensures HeaderLength(Header(v)) == 1 <= HeaderLength(o)
  {
  }

  /** No byte string that decodes to `v` is shorter than the writers' encoding of `v`. */
  lemma {:induction false} TreeIsShortest(s: seq<byte>)
    requires Decode(s).Parsed? && Fits(Decode(s).v)
    ensures |Encode(Decode(s).v)| + |Decode(s).rest| <= |s|
    decreases |s|, 1
  {
    hide ReadBody;
    var v := Decode(s).v;
    var o, rest := ReadObject(s).obj, ReadObject(s).rest;
    ReadThenWrite(s);
    LengthOfHeader(o);
    ReadConsumes(s);
    ContentIsShortest(o, rest);
  }

  lemma {:induction false} ContentIsShortest(o: Object, s: seq<byte>)
    requires WellFormed(o)
    requires var p := DecodeContent(ContentOf(o), s); p.Parsed? && Fits(p.v)
    ensures var p := DecodeContent(ContentOf(o), s); |Encode(p.v)| + |p.rest| <= HeaderLength(o) + |s|
    decreases |s|, 3
  {
    hide WriteObject;
    var v := DecodeContent(ContentOf(o), s).v;
    HeaderContent(v);
    HeaderIsShortest(o, v);
    if v.VArray? || v.VMap? {
      ListIsShortest(|v.items|, s);
    }
  }

  lemma {:induction false} ListIsShortest(n: nat, s: seq<byte>)
    requires DecodeMany(n, s).Parsed? && AllFit(DecodeMany(n, s).v)
    ensures |EncodeAll(DecodeMany(n, s).v)| + |DecodeMany(n, s).rest| <= |s|
    decreases |s|, 2
  {
    hide WriteObject;
    if n > 0 {
      var first := Decode(s);
      var others := DecodeMany(n - 1, first.rest);
      assert ([first.v] + others.v)[1..] == others.v;
      TreeIsShortest(s);
      ListIsShortest(n - 1, first.rest);
    }
  }

  // ----- The encoding as the specification lays it out -----

  /** One of up to three length fields, whichever is the shortest that holds `n`; a marker of
      zero means that the specification has no such form. */
  function SpecLength(one: byte, two: byte, four: byte, n: uint32): seq<byte> {
    if one != 0 && n <= 0xFF then [one] + Big(n, 1)
    else if n <= 0xFFFF then [two] + Big(n, 2)
    else [four] + Big(n, 4)
  }

  function SpecExt(t: int8, n: uint32): seq<byte> {
    (match n
     case 1 => [0xD4] case 2 => [0xD5] case 4 => [0xD6] case 8 => [0xD7] case 16 => [0xD8]
     case _ => SpecLength(0xC7, 0xC8, 0xC9, n)) + [t % 0x100]
  }

  function SpecHeader(v: Value): seq<byte>
    requires Fits(v)
  {
    match v
    case VNil => [0xC0]
    case VBool(b) => [if b then 0xC3 else 0xC2]
    case VInt(i) => SpecInt(i)
    case VStr(t) => if |t| < 32 then [0xA0 + |t|] else SpecLength(0xD9, 0xDA, 0xDB, |t|)
    case VBin(d) => SpecLength(0xC4, 0xC5, 0xC6, |d|)
    case VExt(t, d) => SpecExt(t, |d|)
    case VArray(vs) => if |vs| < 16 then [0x90 + |vs|] else SpecLength(0, 0xDC, 0xDD, |vs|)
    case VMap(vs) => if |vs| / 2 < 16 then [0x80 + |vs| / 2] else SpecLength(0, 0xDE, 0xDF, |vs| / 2)
  }

  lemma StrOnWire(n: uint32)
    ensures WriteObject(StrHeader(n)) == Written(if n < 32 then [0xA0 + n] else SpecLength(0xD9, 0xDA, 0xDB, n))
  {
    hide WriteObject, Big;
    Powers();
    WriterFollowsTable(StrHeader(n));
    BigNone();
  }

  lemma BinOnWire(n: uint32)
    ensures WriteObject(BinHeader(n)) == Written(SpecLength(0xC4, 0xC5, 0xC6, n))
  {
    hide WriteObject, Big;
    Powers();
    WriterFollowsTable(BinHeader(n));
  }

  lemma ArrayOnWire(n: uint32)
    ensures WriteObject(ArrayHeader(n)) == Written(if n < 16 then [0x90 + n] else SpecLength(0, 0xDC, 0xDD, n))
  {
    hide WriteObject, Big;
    Powers();
    WriterFollowsTable(ArrayHeader(n));
    BigNone();
  }

  lemma MapOnWire(n: uint32)
    ensures WriteObject(MapHeader(n)) == Written(if n < 16 then [0x80 + n] else SpecLength(0, 0xDE, 0xDF, n))
  {
    hide WriteObject, Big;
    Powers();
    WriterFollowsTable(MapHeader(n));
    BigNone();
  }

  lemma ExtOnWire(t: int8, n: uint32)
    ensures WriteObject(ExtHeader(t, n)) == Written(SpecExt(t, n))
  {
    hide WriteObject, Big;
    Powers();
    WriterFollowsTable(ExtHeader(t, n));
    BigNone();
  }

  lemma HeaderOnWire(v: Value)
    requires Fits(v)
    ensures HeaderBytes(v) == SpecHeader(v)
  {
    hide WriteObject, SpecInt, IntBytes, SpecExt, SpecLength;
    hide StrHeader, BinHeader, ExtHeader, ArrayHeader, MapHeader;
    match v
    case VInt(i) => IntOnWire(i); IntHeader(v);
    case VStr(t) => StrOnWire(|t|);
    case VBin(d) => BinOnWire(|d|);
    case VExt(t, d) => ExtOnWire(t, |d|);
    case VArray(vs) => ArrayOnWire(|vs|);
    case VMap(vs) => MapOnWire(|vs| / 2);
    case _ => ConstantOnWire(v);
  }

  lemma ConstantOnWire(v: Value)
    requires v.VNil? || v.VBool?
    ensures HeaderBytes(v) == SpecHeader(v)
  {
  }

  lemma IntHeader(v: Value)
    requires Fits(v) && v.VInt?
    ensures HeaderBytes(v) == IntBytes(v.i)
  {
  }

  /** The encodings of some values, one after the other. */
  function Joined(parts: seq<seq<byte>>): seq<byte>
    decreases |parts|
  {
    if |parts| == 0 then [] else parts[0] + Joined(parts[1..])
  }

  lemma {:induction false} ItemsInOrder(vs: seq<Value>)
    requires AllFit(vs)
    ensures forall i :: 0 <= i < |vs| ==> Fits(vs[i])
    ensures EncodeAll(vs) == Joined(seq(|vs|, i requires 0 <= i < |vs| && Fits(vs[i]) => Encode(vs[i])))
    decreases |vs|
  {
    if |vs| > 0 {
      var rest := vs[1..];
      ItemsInOrder(rest);
      assert forall i :: 1 <= i < |vs| ==> vs[i] == rest[i - 1];
      var all := seq(|vs|, i requires 0 <= i < |vs| && Fits(vs[i]) => Encode(vs[i]));
      assert all[1..] == seq(|rest|, i requires 0 <= i < |rest| && Fits(rest[i]) => Encode(rest[i]));
    }
  }

  /** The writers follow the specification: the prescribed header, and behind it the raw bytes,
      or the encodings of the items in order. */
  lemma EncodeFollowsSpec(v: Value)
    requires Fits(v)
    ensures match v
            case VStr(t) => Encode(v) == SpecHeader(v) + t
            case VBin(d) => Encode(v) == SpecHeader(v) + d
            case VExt(_, d) => Encode(v) == SpecHeader(v) + d
            case VArray(vs) => Encode(v) == SpecHeader(v) + EncodeAll(vs)
            case VMap(vs) => Encode(v) == SpecHeader(v) + EncodeAll(vs)
            case _ => Encode(v) == SpecHeader(v)
  {
    hide HeaderBytes, SpecHeader, EncodeAll;
    HeaderOnWire(v);
  }
}
