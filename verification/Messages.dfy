/** What a display or input message means at the other end of the wire. */
module Messages {
  import opened Bytes
  import opened Boxes
  import opened DisplayCore
  import opened Msgpack
  import opened MsgpackIntegers
  import opened MsgpackTree
  import opened Options
  import Cmp
  import NnStr
  import Protocol
  import ProtocolTheorems

  const DISPLAY_UPDATE := 1
  const DISPLAY_SWITCH := 2
  const MOUSE := 3
  const KEYBOARD := 4
  const SHUTDOWN := 6

  /** A C integer passed where an unsigned 64-bit one is expected. */
  function ToU64(v: int): uint64 {
    v % 0x1_0000_0000_0000_0000
  }

  function Ints(fields: seq<int>): (vs: seq<Value>)
    ensures |vs| == |fields| && AllFit(vs)
    decreases |fields|
  {
    if |fields| == 0 then [] else
    var vs := [VInt(ToU64(fields[0]))] + Ints(fields[1..]);
    assert vs[1..] == Ints(fields[1..]);
    vs
  }

  /** A message on the wire: a MessagePack array of unsigned integers. */
  function Message(fields: seq<int>): seq<byte>
    requires |fields| <= 0xFFFFFFFF
  {
    Encode(VArray(Ints(fields)))
  }

  /** The fields of an outgoing message; no update at all stands for the shutdown message. */
  function Fields(update: Option<Update>): seq<int> {
    match update
    case None => [SHUTDOWN]
    case Some(DisplayUpdate(b)) => [DISPLAY_UPDATE, b.x1, b.y1, b.x2 - b.x1, b.y2 - b.y1]
    case Some(DisplaySwitch(_, format, w, h)) => [DISPLAY_SWITCH, format, w, h]
    case Some(Invalid) => []
  }

  lemma {:induction false} MessageSnoc(fields: seq<int>, f: int)
    ensures EncodeAll(Ints(fields + [f])) == EncodeAll(Ints(fields)) + IntBytes(ToU64(f))
    decreases |fields|
  {
    var all := fields + [f];
    if |fields| == 0 {
      assert all[1..] == [];
      assert Ints(all) == [VInt(ToU64(f))];
      assert Encode(VInt(ToU64(f))) == IntBytes(ToU64(f));
    } else {
      assert all[1..] == fields[1..] + [f];
      MessageSnoc(fields[1..], f);
      assert Ints(all)[1..] == Ints(all[1..]);
      assert Ints(fields)[1..] == Ints(fields[1..]);
      Regroup(Encode(VInt(ToU64(fields[0]))), EncodeAll(Ints(fields[1..])), IntBytes(ToU64(f)));
    }
  }

  /** Integers in their shortest form, one after the other. */
  function SpecInts(fields: seq<int>): seq<byte>
    decreases |fields|
  {
    if |fields| == 0 then [] else SpecInt(fields[0] % 0x1_0000_0000_0000_0000) + SpecInts(fields[1..])
  }

  lemma {:induction false} IntsOnWire(fields: seq<int>)
    ensures EncodeAll(Ints(fields)) == SpecInts(fields)
    decreases |fields|
  {
    hide SpecInt, IntBytes;
    if |fields| > 0 {
      IntsOnWire(fields[1..]);
      var f := ToU64(fields[0]);
      assert Ints(fields)[1..] == Ints(fields[1..]);
      IntOnWire(f);
      assert Encode(VInt(f)) == IntBytes(f) by { IntHeader(VInt(f)); }
    }
  }

  /** A message of up to 15 fields, byte for byte. */
  lemma MessageOnWire(fields: seq<int>)
    requires |fields| < 16
    ensures Message(fields) == [0x90 + |fields|] + SpecInts(fields)
  {
    hide HeaderBytes, EncodeAll, SpecInts;
    IntsOnWire(fields);
    EncodeFollowsSpec(VArray(Ints(fields)));
  }

  /** The stream holds the array header and the first `k` fields of a message. */
  ghost predicate Holds(c: Cmp.Context, all: seq<int>, k: nat)
    reads c, c.str, c.str.buf
  {
    && c.Roomy() && k <= |all| <= 0xFFFFFFFF
    && c.str.Contents() == HeaderBytes(VArray(Ints(all))) + EncodeAll(Ints(all[..k]))
  }

  lemma HoldsAll(c: Cmp.Context, all: seq<int>)
    requires Holds(c, all, |all|)
    ensures c.str.Contents() == Message(all)
  {
    hide EncodeAll, HeaderBytes;
    assert all[..|all|] == all;
    assert Message(all) == HeaderBytes(VArray(Ints(all))) + Payload(VArray(Ints(all)));
  }

  /** One call of `cmp_write_uint`, for field `k`. */
  method WriteField(c: Cmp.Context, f: int, ghost all: seq<int>, ghost k: nat)
    requires Holds(c, all, k) && k < |all| && f == all[k]
    modifies c, c.str, c.str.buf
    ensures Holds(c, all, k + 1) && (c.str.buf == old(c.str.buf) || fresh(c.str.buf)) && c.str.buf != null
  {
    hide EncodeAll, Ints, HeaderBytes, IntBytes;
    var ok := c.WriteUinteger(ToU64(f));
    MessageSnoc(all[..k], f);
    assert all[..k + 1] == all[..k] + [f];
    Regroup(HeaderBytes(VArray(Ints(all))), EncodeAll(Ints(all[..k])), IntBytes(ToU64(f)));
  }

  /** Two calls of `cmp_write_uint` in a row. */
  method WriteTwo(c: Cmp.Context, f: int, g: int, ghost all: seq<int>, ghost k: nat)
    requires Holds(c, all, k) && k + 1 < |all| && f == all[k] && g == all[k + 1]
    modifies c, c.str, c.str.buf
    ensures Holds(c, all, k + 2) && (c.str.buf == old(c.str.buf) || fresh(c.str.buf)) && c.str.buf != null
  {
    hide EncodeAll, Ints, HeaderBytes, IntBytes;
    WriteField(c, f, all, k);
    WriteField(c, g, all, k + 1);
  }

  /** `cmp_write_array` at the start of a message. */
  method WriteCount(c: Cmp.Context, n: uint32, ghost all: seq<int>)
    requires c.Roomy() && c.str.Contents() == [] && |all| == n
    modifies c, c.str, c.str.buf
    ensures Holds(c, all, 0) && (c.str.buf == old(c.str.buf) || fresh(c.str.buf)) && c.str.buf != null
  {
    hide Ints;
    var ok := c.WriteArray(n);
    assert all[..0] == [] && EncodeAll(Ints([])) == [];
    assert HeaderBytes(VArray(Ints(all))) == WriteObject(ArrayHeader(n)).bytes;
  }

  /** `mux_write_outgoing_update_msg`. */
  method WriteUpdateMsg(c: Cmp.Context, b: Box)
    requires c.Roomy() && c.str.Contents() == []
    modifies c, c.str, c.str.buf
    ensures c.Roomy() && (c.str.buf == old(c.str.buf) || fresh(c.str.buf)) && c.str.buf != null
    ensures c.str.Contents() == Message(Fields(Some(DisplayUpdate(b))))
    ensures c.str.Contents() == [0x95] + SpecInts([1, b.x1, b.y1, b.x2 - b.x1, b.y2 - b.y1])
  {
    hide EncodeAll, Ints, HeaderBytes, IntBytes, SpecInts, Encode;
    ghost var all := Fields(Some(DisplayUpdate(b)));
    WriteCount(c, 5, all);
    WriteField(c, DISPLAY_UPDATE, all, 0);
    WriteTwo(c, b.x1, b.y1, all, 1);
    WriteTwo(c, b.x2 - b.x1, b.y2 - b.y1, all, 3);
    HoldsAll(c, all);
    MessageOnWire(all);
  }

  /** `mux_write_outgoing_switch_msg`. */
  method WriteSwitchMsg(c: Cmp.Context, u: Update)
    requires c.Roomy() && c.str.Contents() == [] && u.DisplaySwitch?
    modifies c, c.str, c.str.buf
    ensures c.Roomy() && (c.str.buf == old(c.str.buf) || fresh(c.str.buf)) && c.str.buf != null
    ensures c.str.Contents() == Message(Fields(Some(u)))
    ensures c.str.Contents() == [0x94] + SpecInts([2, u.format, u.w, u.h])
  {
    hide EncodeAll, Ints, HeaderBytes, IntBytes, SpecInts, Encode;
    ghost var all := Fields(Some(u));
    WriteCount(c, 4, all);
    WriteTwo(c, DISPLAY_SWITCH, u.format, all, 0);
    WriteTwo(c, u.w, u.h, all, 2);
    HoldsAll(c, all);
    MessageOnWire(all);
  }

  /** `mux_write_outgoing_shutdown_msg`. */
  method WriteShutdownMsg(c: Cmp.Context)
    requires c.Roomy() && c.str.Contents() == []
    modifies c, c.str, c.str.buf
    ensures c.Roomy() && (c.str.buf == old(c.str.buf) || fresh(c.str.buf)) && c.str.buf != null
    ensures c.str.Contents() == Message(Fields(None)) == [0x91, 0x06]
  {
    hide EncodeAll, Ints, HeaderBytes, IntBytes, Encode;
    ghost var all := Fields(None);
    WriteCount(c, 1, all);
    WriteField(c, SHUTDOWN, all, 0);
    HoldsAll(c, all);
    MessageOnWire(all);
  }

  /** `mux_write_outgoing_msg`: the returned length is the buffer's capacity, so the message
      is followed on the wire by whatever the allocator left behind it. */
  method WriteOutgoing(update: Option<Update>, usable: nat) returns (msg: NnStr.Buffer, len: nat)
    requires usable >= 8
    ensures fresh(msg) && msg.Valid() && len == msg.size
    ensures update != Some(Invalid) ==>
              && msg.buf != null && fresh(msg.buf) && msg.buf.Length == len
              && Message(Fields(update)) <= msg.buf[..]
    ensures update == Some(Invalid) ==> len == 0
  {
    msg := new NnStr.Buffer.ForWriting(usable);
    var c := new Cmp.Context(msg);
    match update {
      case None => WriteShutdownMsg(c);
      case Some(DisplayUpdate(b)) => WriteUpdateMsg(c, b);
      case Some(DisplaySwitch(_, _, _, _)) => WriteSwitchMsg(c, update.value);
      case Some(Invalid) =>
    }
    len := msg.size;
  }

  // ----- The server side -----

  predicate IsU32(v: Value) { v.VInt? && 0 <= v.i < 0x1_0000_0000 }

  function Numbers(vs: seq<Value>): seq<uint32>
    requires forall i :: 0 <= i < |vs| ==> IsU32(vs[i])
  {
    seq(|vs|, i requires 0 <= i < |vs| && IsU32(vs[i]) => var n: uint32 := vs[i].i; n)
  }

  /** Unpacking a received frame and converting it to a vector of 32-bit numbers. */
  function Unpack(s: seq<byte>): Option<seq<uint32>> {
    var p := Decode(s);
    if p.Parsed? && p.v.VArray? && forall i :: 0 <= i < |p.v.items| ==> IsU32(p.v.items[i])
    then Some(Numbers(p.v.items)) else None
  }

  lemma {:induction false} IntsAt(fields: seq<int>, i: nat)
    requires i < |fields|
    ensures Ints(fields)[i] == VInt(ToU64(fields[i]))
    decreases |fields|
  {
    if i > 0 {
      IntsAt(fields[1..], i - 1);
    }
  }

  /** Every field of 32 bits arrives, in order, whatever padding follows the message. */
  lemma FieldsArrive(fields: seq<int>, padding: seq<byte>)
    requires |fields| <= 0xFFFFFFFF && forall i :: 0 <= i < |fields| ==> 0 <= fields[i] < 0x1_0000_0000
    ensures Unpack(Message(fields) + padding) == Some(fields)
  {
    hide Encode, ReadObject;
    var v := VArray(Ints(fields));
    TreeRoundTrip(v, padding);
    forall i | 0 <= i < |fields|
      ensures Ints(fields)[i] == VInt(fields[i]) && IsU32(Ints(fields)[i])
    {
      IntsAt(fields, i);
    }
    assert Numbers(v.items) == fields;
  }

  /** The shutdown message is unpacked as the single number 6. */
  lemma ShutdownArrives(padding: seq<byte>)
    ensures Unpack(Message(Fields(None)) + padding) == Some([6])
  {
    hide Message, Unpack;
    FieldsArrive(Fields(None), padding);
  }

  datatype Rect16 = Rect16(left: uint16, top: uint16, right: uint16, bottom: uint16)

  /** The rectangle built in `rdpmux_subsystem_update_frame`: each number is narrowed to 16
      bits, and so is each sum. */
  function InvalidRect(x: uint32, y: uint32, w: uint32, h: uint32): Rect16 {
    var x16, y16, w16, h16 := x % 0x1_0000, y % 0x1_0000, w % 0x1_0000, h % 0x1_0000;
    Rect16(x16, y16, (x16 + w16) % 0x1_0000, (y16 + h16) % 0x1_0000)
  }

  predicate Same(r: Rect16, b: Box) {
    r.left == b.x1 && r.top == b.y1 && r.right == b.x2 && r.bottom == b.y2
  }

  /** The server's rectangle equals the published box exactly when the box fits 16 bits. */
  lemma RectSurvivesIff(b: Box)
    requires Proper(b) && b.x2 < 0x1_0000_0000 && b.y2 < 0x1_0000_0000
    ensures Same(InvalidRect(b.x1, b.y1, b.x2 - b.x1, b.y2 - b.y1), b) <==> b.x2 < 0x1_0000 && b.y2 < 0x1_0000
  {
  }

  /** What a listener remembers of display messages. */
  datatype Seen = Seen(x: uint32, y: uint32, w: uint32, h: uint32, format: uint32, width: uint32, height: uint32, mapped: bool)

  const NothingSeen := Seen(0, 0, 0, 0, 0, 0, 0, false)

  /** The effect of a message of full length, with the shared memory mapped when needed. */
  function AfterMessage(v: Seen, msg: seq<uint32>): Seen {
    if |msg| >= 5 && msg[0] == DISPLAY_UPDATE then v.(x := msg[1], y := msg[2], w := msg[3], h := msg[4])
    else if |msg| >= 4 && msg[0] == DISPLAY_SWITCH then v.(format := msg[1], width := msg[2], height := msg[3], mapped := true)
    else v
  }

  /** The state of `RDPListener` that messages change. */
  class Listener {
    var x: uint32
    var y: uint32
    var w: uint32
    var h: uint32
    var width: uint32
    var height: uint32
    var format: uint32
    var mapped: bool
    var running: bool

    ghost function State(): Seen
      reads this
    {
      Seen(x, y, w, h, format, width, height, mapped)
    }

    constructor ()
      ensures State() == NothingSeen && !running
    {
      mapped, running := false, false;
      x, y, w, h, width, height, format := 0, 0, 0, 0, 0, 0, 0;
    }

    /** `processIncomingMessage`; `mapOk` is the outcome of mapping the shared memory. The
        result says whether `vector::at` threw. */
    method Process(msg: seq<uint32>, mapOk: bool) returns (threw: bool)
      requires |msg| > 0
      modifies this
      ensures var n := if msg[0] == DISPLAY_UPDATE then |msg| else 0;
              && x == (if n > 1 then msg[1] else old(x)) && y == (if n > 2 then msg[2] else old(y))
              && w == (if n > 3 then msg[3] else old(w)) && h == (if n > 4 then msg[4] else old(h))
      ensures if msg[0] == DISPLAY_SWITCH && |msg| >= 4 && (old(mapped) || mapOk)
              then (format, width, height, mapped) == (msg[1], msg[2], msg[3], true)
              else (format, width, height, mapped) == old((format, width, height, mapped))
      ensures threw <==> (msg[0] == DISPLAY_UPDATE && |msg| < 5) || (msg[0] == DISPLAY_SWITCH && |msg| < 4)
      ensures running == (old(running) && msg[0] != SHUTDOWN)
      ensures !threw && mapOk ==> State() == AfterMessage(old(State()), msg)
    {
      threw := false;
      if msg[0] == DISPLAY_UPDATE {
        threw := ProcessUpdate(msg);
      } else if msg[0] == DISPLAY_SWITCH {
        threw := ProcessSwitch(msg, mapOk);
      } else if msg[0] == SHUTDOWN {
        running := false;
      }
    }

    /** `processDisplayUpdate`: the fields are assigned one by one, so a short message changes
        the leading ones before it throws. */
    method ProcessUpdate(msg: seq<uint32>) returns (threw: bool)
      modifies this`x, this`y, this`w, this`h
      ensures threw <==> |msg| < 5
      ensures x == (if |msg| > 1 then msg[1] else old(x)) && y == (if |msg| > 2 then msg[2] else old(y))
      ensures w == (if |msg| > 3 then msg[3] else old(w)) && h == (if |msg| > 4 then msg[4] else old(h))
    {
      threw := true;
      if |msg| <= 1 { return; }
      x := msg[1];
      if |msg| <= 2 { return; }
      y := msg[2];
      if |msg| <= 3 { return; }
      w := msg[3];
      if |msg| <= 4 { return; }
      h := msg[4];
      threw := false;
    }

    /** `processDisplaySwitch`. */
    method ProcessSwitch(msg: seq<uint32>, mapOk: bool) returns (threw: bool)
      modifies this`width, this`height, this`format, this`mapped
      ensures threw <==> |msg| < 4
      ensures if |msg| >= 4 && (old(mapped) || mapOk)
              then (format, width, height, mapped) == (msg[1], msg[2], msg[3], true)
              else (format, width, height, mapped) == old((format, width, height, mapped))
    {
      if |msg| < 4 {
        return true;
      }
      threw := false;
      var displayWidth, displayHeight, displayFormat := msg[2], msg[3], msg[1];
      if !mapped {
        if !mapOk {
          return;
        }
        mapped := true;
      }
      width, height, format := displayWidth, displayHeight, displayFormat;
    }

    /** `GetDirtyRegion` and the narrowing that its caller applies. If the fields are those of
        a box, the rectangle is that box as long as the box fits 16 bits; in any case its
        corners are the true ones modulo 65536. */
    method DirtyRect() returns (r: Rect16)
      ensures forall b: Box :: Proper(b) && (x, y, w, h) == (b.x1, b.y1, b.x2 - b.x1, b.y2 - b.y1) ==>
                (Same(r, b) <==> b.x2 < 0x1_0000 && b.y2 < 0x1_0000)
      ensures (r.left - x) % 0x1_0000 == 0 && (r.right - x - w) % 0x1_0000 == 0
      ensures (r.top - y) % 0x1_0000 == 0 && (r.bottom - y - h) % 0x1_0000 == 0
    {
      var x16, y16, w16, h16 := x % 0x1_0000, y % 0x1_0000, w % 0x1_0000, h % 0x1_0000;
      r := Rect16(x16, y16, (x16 + w16) % 0x1_0000, (y16 + h16) % 0x1_0000);
    }
  }

  /** What the run loop does with the last frame of a message for a listener: unpack, convert
      and process, where a failed conversion is logged and forgotten. A shutdown message stops
      the listener and changes nothing else. */
  method HandleFrame(l: Listener, data: seq<byte>, mapOk: bool) returns (converted: bool, threw: bool)
    requires Unpack(data) != Some([])
    modifies l
    ensures converted <==> Unpack(data).Some?
    ensures !converted ==> !threw && l.State() == old(l.State()) && l.running == old(l.running)
    ensures converted && mapOk && !threw ==> l.State() == AfterMessage(old(l.State()), Unpack(data).value)
    ensures converted ==> l.running == (old(l.running) && Unpack(data).value[0] != SHUTDOWN)
    ensures Message(Fields(None)) <= data ==> converted && !threw && !l.running && l.State() == old(l.State())
  {
    hide Message, Unpack;
    if Message(Fields(None)) <= data {
      var n := |Message(Fields(None))|;
      ShutdownArrives(data[n..]);
      assert data == Message(Fields(None)) + data[n..];
    }
    var v := Unpack(data);
    if v.None? {
      return false, false;
    }
    threw := l.Process(v.value, mapOk);
    converted := true;
  }

  /** What a listener that processes the unpacked vector then holds. */
  ghost predicate Conveys(vec: seq<uint32>, u: Update) {
    match u
    case Invalid => false
    case DisplayUpdate(b) =>
      |vec| == 5 && vec[0] == DISPLAY_UPDATE && Same(InvalidRect(vec[1], vec[2], vec[3], vec[4]), b)
    case DisplaySwitch(_, format, w, h) =>
      vec == [DISPLAY_SWITCH, format, w, h]
  }

  /** One field that needs more than 32 bits, such as a negative one, and the server cannot
      convert the message. */
  lemma WideFieldStopsMessage(fields: seq<int>, k: nat, padding: seq<byte>)
    requires |fields| <= 0xFFFFFFFF && k < |fields| && ToU64(fields[k]) >= 0x1_0000_0000
    ensures Unpack(Message(fields) + padding) == None
  {
    hide Encode, ReadObject;
    var v := VArray(Ints(fields));
    TreeRoundTrip(v, padding);
    IntsAt(fields, k);
    assert !IsU32(v.items[k]);
  }

  predicate RightWayRound(u: Update) { u.DisplayUpdate? ==> u.box.x1 <= u.box.x2 }

  /** What goes into the slot is rebuilt by the server exactly if it is not a box the wrong way
      round; such a box has a negative width, and its message is dropped. */
  lemma UpdateArrivesIff(u: Update, padding: seq<byte>)
    requires Protocol.Publishable(u) && (u.DisplaySwitch? ==> 0 <= u.format < 0x1_0000_0000)
    ensures var v := Unpack(Message(Fields(Some(u))) + padding);
            && ((v.Some? && Conveys(v.value, u)) <==> RightWayRound(u))
            && (v == None <==> !RightWayRound(u))
  {
    hide Message, Unpack;
    if RightWayRound(u) {
      FieldsArrive(Fields(Some(u)), padding);
      if u.DisplayUpdate? {
        RectSurvivesIff(u.box);
      }
    } else {
      WideFieldStopsMessage(Fields(Some(u)), 3, padding);
    }
  }

  /** The box that a refresh makes of a pending one arrives exactly if the aligned pending one is
      the right way round and its left edge is not to the right of the surface. */
  lemma RefreshedBoxArrivesIff(b: Box, w: nat, h: nat, padding: seq<byte>)
    requires Landed(b, h) && w <= MAX_WIDTH && h <= MAX_HEIGHT
    ensures var c := Close(b, w, h);
            var v := Unpack(Message(Fields(Some(DisplayUpdate(c)))) + padding);
            && ((v.Some? && Conveys(v.value, DisplayUpdate(c))) <==> Upright(b, w, h))
            && (v == None <==> !Upright(b, w, h))
  {
    hide Message, Unpack, Conveys;
    CloseLanded(b, w, h);
    PublishedProperIff(b, w, h);
    UpdateArrivesIff(DisplayUpdate(Close(b, w, h)), padding);
  }

  /** The box that is left over when 800 columns with column 600 dirty are replaced by 400 does
      not arrive. */
  lemma NarrowSwitchUpdateIsDropped(padding: seq<byte>)
    ensures Unpack(Message(Fields(Some(DisplayUpdate(Box(592, 0, 400, 16))))) + padding) == None
  {
    hide Message, Unpack;
    UpdateArrivesIff(DisplayUpdate(Box(592, 0, 400, 16)), padding);
  }

  /** Display messages end to end: over every run of the display system, each message put on
      the wire, sent at full buffer capacity with whatever padding, is rebuilt by the server as
      the same box, or as the same format, width and height, unless it is a box the wrong way
      round. An update that covers any pixel is not. */
  lemma WireMessagesArrive(run: seq<Protocol.Step>, j: nat, padding: seq<byte>)
    requires Protocol.ValidRun(Protocol.Init, run)
    requires var s := Protocol.Exec(Protocol.Init, run);
             j < |s.wire| && (s.wire[j].DisplaySwitch? ==> 0 <= s.wire[j].format < 0x1_0000_0000)
    ensures var u := Protocol.Exec(Protocol.Init, run).wire[j];
            var v := Unpack(Message(Fields(Some(u))) + padding);
            && ((v.Some? && Conveys(v.value, u)) <==> RightWayRound(u))
            && (v == None <==> !RightWayRound(u))
            && (u.DisplayUpdate? && (exists x, y :: Covers(u.box, x, y)) ==> RightWayRound(u))
  {
    hide Message, Unpack;
    ProtocolTheorems.SentInOrder(run);
    UpdateArrivesIff(Protocol.Exec(Protocol.Init, run).wire[j], padding);
  }

  /** If callers keep reported and pending corners on the surface, every message arrives. */
  lemma AnchoredRunsArrive(run: seq<Protocol.Step>, j: nat, padding: seq<byte>)
    requires Protocol.ValidRun(Protocol.Init, run) && ProtocolTheorems.AnchoredRun(Protocol.Init, run)
    requires var s := Protocol.Exec(Protocol.Init, run);
             j < |s.wire| && (s.wire[j].DisplaySwitch? ==> 0 <= s.wire[j].format < 0x1_0000_0000)
    ensures var u := Protocol.Exec(Protocol.Init, run).wire[j];
            var v := Unpack(Message(Fields(Some(u))) + padding);
            v.Some? && Conveys(v.value, u)
  {
    hide Message, Unpack, Conveys, ProtocolTheorems.AnchoredRun;
    WireMessagesArrive(run, j, padding);
    if Protocol.Exec(Protocol.Init, run).wire[j].DisplayUpdate? {
      ProtocolTheorems.AnchoredRunsSendProperBoxes(run, j);
    }
  }

  // ----- Input events, from the server to the guest -----

  datatype Event = MouseEvent(flags: uint16, x: uint16, y: uint16) | KeyEvent(flags: uint16, code: uint16)

  /** `rdpmux_mouse_event` and `rdpmux_keyboard_event`: the vector that is queued. */
  function EventFields(e: Event): seq<int> {
    match e
    case MouseEvent(flags, x, y) => [MOUSE, x, y, flags]
    case KeyEvent(flags, code) => [KEYBOARD, code, flags]
  }

  /** The vector that `rdpmux_mouse_event` builds and queues. */
  method MouseVector(flags: uint16, x: uint16, y: uint16) returns (vec: seq<uint16>)
    ensures vec == [3, x, y, flags] == EventFields(MouseEvent(flags, x, y))
  {
    vec := [];
    vec := vec + [MOUSE];
    vec := vec + [x];
    vec := vec + [y];
    vec := vec + [flags];
  }

  /** The vector that `rdpmux_keyboard_event` builds and queues. */
  method KeyVector(flags: uint16, code: uint16) returns (vec: seq<uint16>)
    ensures vec == [4, code, flags] == EventFields(KeyEvent(flags, code))
  {
    vec := [];
    vec := vec + [KEYBOARD];
    vec := vec + [code];
    vec := vec + [flags];
  }

  datatype Callback = ReceiveMouse(x: uint32, y: uint32, flags: uint32) | ReceiveKey(keycode: uint32, flags: uint32)

  function Expected(e: Event): Callback {
    match e
    case MouseEvent(flags, x, y) => ReceiveMouse(x, y, flags)
    case KeyEvent(flags, code) => ReceiveKey(code, flags)
  }

  datatype TakeResult = Took(vs: seq<uint32>, rest: seq<byte>) | RanOut

  /** `n` calls of `cmp_read_uint` in a row. */
  function TakeUints(n: nat, s: seq<byte>): (t: TakeResult)
    ensures t.Took? ==> |t.vs| == n
  {
    if n == 0 then Took([], s)
    else
      match ReadInt(CType.UInt, s)
      case NoValue(_, _) => RanOut
      case Value(v, rest) =>
        UintInRange(s);
        var t := TakeUints(n - 1, rest);
        if t.RanOut? then RanOut else Took([v] + t.vs, t.rest)
  }

  lemma UintInRange(s: seq<byte>)
    requires ReadInt(CType.UInt, s).Value?
    ensures 0 <= ReadInt(CType.UInt, s).v < 0x1_0000_0000
  {
    var r := ReadObject(s);
    ReadThenWrite(s);
    AcceptsIff(CType.UInt, r.obj, As(CType.UInt, r.obj).value);
  }

  /** `mux_process_incoming_msg`: the callbacks that a received frame fires. */
  function Incoming(s: seq<byte>): seq<Callback> {
    match ReadObject(s)
    case Failed(_, _) => []
    case Got(o, rest) =>
      if !(o.FixArray? || o.Array16? || o.Array32?) then [] else
      match TakeUints(1, rest)
      case RanOut => []
      case Took(kind, body) =>
        if kind[0] == MOUSE then
          match TakeUints(3, body)
          case RanOut => []
          case Took(a, _) => [ReceiveMouse(a[0], a[1], a[2])]
        else if kind[0] == KEYBOARD then
          match TakeUints(2, body)
          case RanOut => []
          case Took(a, _) => [ReceiveKey(a[0], a[1])]
        else []
  }

  lemma TakeOne(n: nat, f: int, s: seq<byte>)
    requires 0 <= f < 0x1_0000_0000 && TakeUints(n, s).Took?
    ensures TakeUints(n + 1, IntBytes(f) + s) == Took([f] + TakeUints(n, s).vs, TakeUints(n, s).rest)
  {
    hide ReadInt, IntBytes;
    IntegerExactness(CType.UInt, f, s);
  }

  lemma SmallToU64(f: int)
    requires 0 <= f < 0x1_0000_0000
    ensures ToU64(f) == f
  {
  }

  lemma SplitFirst(fields: seq<int>, rest: seq<byte>)
    requires |fields| > 0
    ensures EncodeAll(Ints(fields)) + rest == IntBytes(ToU64(fields[0])) + (EncodeAll(Ints(fields[1..])) + rest)
  {
    assert Ints(fields)[1..] == Ints(fields[1..]);
    Regroup(Encode(VInt(ToU64(fields[0]))), EncodeAll(Ints(fields[1..])), rest);
    assert Encode(VInt(ToU64(fields[0]))) == IntBytes(ToU64(fields[0]));
  }

  lemma {:induction false} TakeEncoded(fields: seq<int>, n: nat, rest: seq<byte>)
    requires n <= |fields| && forall i :: 0 <= i < |fields| ==> 0 <= fields[i] < 0x1_0000_0000
    ensures TakeUints(n, EncodeAll(Ints(fields)) + rest) == Took(fields[..n], EncodeAll(Ints(fields[n..])) + rest)
    decreases n
  {
    hide ReadInt, IntBytes;
    if n == 0 {
      assert fields[0..] == fields && fields[..0] == [];
    } else {
      var tail := fields[1..];
      TakeEncoded(tail, n - 1, rest);
      SmallToU64(fields[0]);
      TakeOne(n - 1, fields[0], EncodeAll(Ints(tail)) + rest);
      SplitFirst(fields, rest);
      assert [fields[0]] + tail[..n - 1] == fields[..n] && tail[n - 1..] == fields[n..];
    }
  }

  /** Input events end to end: every event makes the library fire exactly one callback, of
      its own kind, with its own values in their own places. */
  lemma EventArrives(e: Event, rest: seq<byte>)
    ensures Incoming(Message(EventFields(e)) + rest) == [Expected(e)]
  {
    hide ReadObject, IntBytes, TakeUints, EncodeAll, HeaderBytes;
    var f := EventFields(e);
    var v := VArray(Ints(f));
    assert Encode(v) == HeaderBytes(v) + EncodeAll(Ints(f));
    Regroup(HeaderBytes(v), EncodeAll(Ints(f)), rest);
    HeaderReads(v, EncodeAll(Ints(f)) + rest);
    TakeEncoded(f, 1, rest);
    TakeEncoded(f[1..], |f| - 1, rest);
  }

  /** What the library makes of a frame that starts with an array of 32-bit numbers: the first
      is the type, and the places of the others are fixed. */
  lemma DispatchTable(fields: seq<int>, rest: seq<byte>)
    requires 0 < |fields| <= 0xFFFFFFFF && forall i :: 0 <= i < |fields| ==> 0 <= fields[i] < 0x1_0000_0000
    ensures fields[0] == 3 && |fields| >= 4 ==>
              Incoming(Message(fields) + rest) == [ReceiveMouse(fields[1], fields[2], fields[3])]
    ensures fields[0] == 4 && |fields| >= 3 ==>
              Incoming(Message(fields) + rest) == [ReceiveKey(fields[1], fields[2])]
    ensures fields[0] !in {3, 4} ==> Incoming(Message(fields) + rest) == []
  {
    hide ReadObject, IntBytes, TakeUints, EncodeAll, HeaderBytes;
    var v := VArray(Ints(fields));
    assert Encode(v) == HeaderBytes(v) + EncodeAll(Ints(fields));
    Regroup(HeaderBytes(v), EncodeAll(Ints(fields)), rest);
    HeaderReads(v, EncodeAll(Ints(fields)) + rest);
    TakeEncoded(fields, 1, rest);
    if fields[0] == 3 && |fields| >= 4 {
      TakeEncoded(fields[1..], 3, rest);
    } else if fields[0] == 4 && |fields| >= 3 {
      TakeEncoded(fields[1..], 2, rest);
    }
  }

  /** A frame that does not start with an array, or whose first item is not an unsigned number
      of 32 bits, fires nothing. */
  lemma DispatchRejects(s: seq<byte>)
    requires var r := ReadObject(s);
             r.Failed? || !(r.obj.FixArray? || r.obj.Array16? || r.obj.Array32?) || ReadInt(CType.UInt, r.rest).NoValue?
    ensures Incoming(s) == []
  {
    hide ReadObject, ReadInt;
  }

  /** `mux_process_incoming_msg` and its two handlers, on the stream. */
  method ProcessIncoming(data: array<byte>) returns (fired: seq<Callback>)
    ensures fired == Incoming(data[..])
  {
    hide ReadObject, TakeUints;
    var str := new NnStr.Buffer.ForReading(data);
    var c := new Cmp.Context(str);
    fired := [];
    var ok, size := c.ReadArray();
    if !ok {
      return;
    }
    var kind;
    ok, kind := ReadUints(c, 1);
    if !ok {
      return;
    }
    if kind[0] == MOUSE {
      var a;
      ok, a := ReadUints(c, 3);
      if ok {
        fired := [ReceiveMouse(a[0], a[1], a[2])];
      }
    } else if kind[0] == KEYBOARD {
      var a;
      ok, a := ReadUints(c, 2);
      if ok {
        fired := [ReceiveKey(a[0], a[1])];
      }
    }
  }

  method ReadUints(c: Cmp.Context, n: nat) returns (ok: bool, vs: seq<uint32>)
    requires c.Readable()
    modifies c, c.str
    ensures c.Readable() && c.str.buf == old(c.str.buf)
    ensures match TakeUints(n, old(c.str.Remaining()))
            case RanOut => !ok
            case Took(a, rest) => ok && vs == a && c.str.Remaining() == rest
    decreases n
  {
    hide ReadInt;
    vs := [];
    if n == 0 {
      return true, [];
    }
    var v: int;
    ok, v := c.ReadTyped(CType.UInt);
    if ok {
      UintInRange(old(c.str.Remaining()));
      var others;
      ok, others := ReadUints(c, n - 1);
      vs := [v] + others;
    }
  }
}
