/** Multipart messages over an ordered, lossless socket. */
module Multipart {
  import opened Bytes

  type Frame = seq<byte>

  /** A frame in transit, with the flag that says whether its message goes on. */
  datatype Part = Part(frame: Frame, more: bool)

  class Socket {
    var queue: seq<Part>

    constructor ()
      ensures queue == []
    {
      queue := [];
    }
  }

  /** How a message travels: every frame but the last announces another one. */
  function Wire(parts: seq<Frame>): seq<Part>
    decreases |parts|
  {
    if |parts| == 0 then [] else [Part(parts[0], |parts| > 1)] + Wire(parts[1..])
  }

  lemma {:induction false} WireLength(parts: seq<Frame>)
    ensures |Wire(parts)| == |parts|
    decreases |parts|
  {
    if |parts| > 0 {
      WireLength(parts[1..]);
    }
  }

  lemma {:induction false} WireAt(parts: seq<Frame>, i: nat)
    requires i < |parts|
    ensures |Wire(parts)| == |parts| && Wire(parts)[i] == Part(parts[i], i + 1 < |parts|)
    decreases |parts|
  {
    WireLength(parts);
    if i > 0 {
      WireAt(parts[1..], i - 1);
    }
  }

  /** A complete message is waiting. */
  predicate Complete(q: seq<Part>)
    decreases |q|
  {
    |q| > 0 && (q[0].more ==> Complete(q[1..]))
  }

  function FirstMessage(q: seq<Part>): (r: (seq<Frame>, seq<Part>))
    requires Complete(q)
    ensures |r.1| < |q| && |r.0| > 0
    decreases |q|
  {
    if !q[0].more then ([q[0].frame], q[1..])
    else
      var r := FirstMessage(q[1..]);
      ([q[0].frame] + r.0, r.1)
  }

  class Message {
    var parts: seq<Frame>

    constructor ()
      ensures parts == []
    {
      parts := [];
    }

    method Pop() returns (f: Frame)
      modifies this
      ensures if old(parts) == [] then f == [] && parts == [] else [f] + parts == old(parts)
    {
      if parts == [] {
        return [];
      }
      f, parts := parts[0], parts[1..];
    }

    method Remove() returns (f: Frame)
      modifies this
      ensures if old(parts) == [] then f == [] && parts == [] else parts + [f] == old(parts)
    {
      if parts == [] {
        return [];
      }
      f, parts := parts[|parts| - 1], parts[..|parts| - 1];
    }

    /** `multipart_t::send`; the socket takes `room` more frames. The first frame that it does
        not take is lost, and those behind it stay in the message. */
    method Send(socket: Socket, room: nat) returns (ok: bool)
      modifies this, socket
      ensures ok <==> |old(parts)| <= room
      ensures ok ==> parts == [] && socket.queue == old(socket.queue) + Wire(old(parts))
      ensures !ok ==> parts == old(parts)[room + 1..]
      ensures !ok ==> room < |Wire(old(parts))| && socket.queue == old(socket.queue) + Wire(old(parts))[..room]
    {
      var more := |parts| > 0;
      ghost var all, start := parts, socket.queue;
      WireLength(all);
      assert Wire(all)[..0] == [];
      var sent := 0;
      while more
        invariant 0 <= sent <= |all| && sent <= room && parts == all[sent..]
        invariant more <==> |parts| > 0
        invariant socket.queue == start + Wire(all)[..sent]
        decreases |parts|
      {
        var f := Pop();
        more := |parts| > 0;
        WireAt(all, sent);
        if sent == room {
          return false;
        }
        socket.queue := socket.queue + [Part(f, more)];
        assert Wire(all)[..sent + 1] == Wire(all)[..sent] + [Part(f, more)];
        sent := sent + 1;
      }
      parts := [];
      assert Wire(all)[..sent] == Wire(all);
      return true;
    }

    /** `multipart_t::recv`; the first `takes` frames are received without an error. On an
        incomplete message the socket would block. */
    method Recv(socket: Socket, takes: nat) returns (ok: bool)
      requires Complete(socket.queue)
      modifies this, socket
      ensures var m := FirstMessage(old(socket.queue));
              && (ok <==> |m.0| <= takes)
              && (ok ==> (parts, socket.queue) == m)
              && (!ok ==> parts == m.0[..takes] && takes <= |old(socket.queue)| && socket.queue == old(socket.queue)[takes..])
    {
      parts := [];
      var more := true;
      ghost var start := socket.queue;
      ghost var all := FirstMessage(start);
      while more
        invariant |parts| <= takes && |parts| <= |start| && socket.queue == start[|parts|..]
        invariant more ==> Complete(socket.queue) && FirstMessage(socket.queue).1 == all.1
        invariant more ==> parts + FirstMessage(socket.queue).0 == all.0
        invariant !more ==> (parts, socket.queue) == all
        decreases more, |socket.queue|
      {
        if |parts| == takes {
          assert parts == all.0[..takes];
          return false;
        }
        var p := socket.queue[0];
        socket.queue := socket.queue[1..];
        more := p.more;
        parts := parts + [p.frame];
      }
      return true;
    }

    /** `multipart_t::prepend`: moved one by one from the other's end to this one's front. */
    method Prepend(other: Message)
      requires other != this
      modifies this, other
      ensures parts == old(other.parts) + old(parts) && other.parts == []
    {
      while other.parts != []
        invariant other.parts + parts == old(other.parts) + old(parts)
        decreases |other.parts|
      {
        var f := other.Remove();
        parts := [f] + parts;
      }
    }

    /** `multipart_t::append`. */
    method Append(other: Message)
      requires other != this
      modifies this, other
      ensures parts == old(parts) + old(other.parts) && other.parts == []
    {
      while other.parts != []
        invariant parts + other.parts == old(parts) + old(other.parts)
        decreases |other.parts|
      {
        var f := other.Pop();
        parts := parts + [f];
      }
    }
  }

  function WireAll(ms: seq<seq<Frame>>): seq<Part>
    decreases |ms|
  {
    if |ms| == 0 then [] else Wire(ms[0]) + WireAll(ms[1..])
  }

  lemma {:induction false} WireAllSnoc(ms: seq<seq<Frame>>, m: seq<Frame>)
    ensures WireAll(ms + [m]) == WireAll(ms) + Wire(m)
    decreases |ms|
  {
    if |ms| == 0 {
      assert (ms + [m])[1..] == [];
    } else {
      assert (ms + [m])[1..] == ms[1..] + [m];
      WireAllSnoc(ms[1..], m);
    }
  }

  /** Receiving for as long as a complete message waits. */
  function ReceiveAll(q: seq<Part>): seq<seq<Frame>>
    decreases |q|
  {
    if !Complete(q) then [] else [FirstMessage(q).0] + ReceiveAll(FirstMessage(q).1)
  }

  function NonEmpty(ms: seq<seq<Frame>>): seq<seq<Frame>>
    decreases |ms|
  {
    if |ms| == 0 then []
    else if |ms[0]| == 0 then NonEmpty(ms[1..])
    else [ms[0]] + NonEmpty(ms[1..])
  }

  lemma {:induction false} FirstOfWire(m: seq<Frame>, q: seq<Part>)
    requires |m| > 0
    ensures Complete(Wire(m) + q) && FirstMessage(Wire(m) + q) == (m, q)
    decreases |m|
  {
    var all := Wire(m) + q;
    assert all[0] == Part(m[0], |m| > 1) && all[1..] == Wire(m[1..]) + q;
    if |m| > 1 {
      FirstOfWire(m[1..], q);
      assert [m[0]] + m[1..] == m;
    } else {
      assert Wire(m[1..]) + q == q && m == [m[0]];
    }
  }

  /** Frames never cross a message boundary: whatever was sent is received message by
      message, except that empty messages leave no trace. */
  lemma {:induction false} ReceivedIsSent(ms: seq<seq<Frame>>)
    ensures ReceiveAll(WireAll(ms)) == NonEmpty(ms)
    decreases |ms|
  {
    if |ms| > 0 {
      ReceivedIsSent(ms[1..]);
      if |ms[0]| == 0 {
        assert WireAll(ms) == WireAll(ms[1..]);
      } else {
        FirstOfWire(ms[0], WireAll(ms[1..]));
      }
    }
  }

  lemma {:induction false} NonEmptyKeepsAll(ms: seq<seq<Frame>>)
    ensures |NonEmpty(ms)| <= |ms|
    ensures NonEmpty(ms) == ms <==> forall i :: 0 <= i < |ms| ==> |ms[i]| > 0
    decreases |ms|
  {
    if |ms| > 0 {
      NonEmptyKeepsAll(ms[1..]);
      assert ms == [ms[0]] + ms[1..];
      assert forall i :: 0 <= i < |ms[1..]| ==> ms[1..][i] == ms[i + 1];
    }
  }

  /** A list of messages is rebuilt exactly if and only if none of them is empty. */
  lemma FramingIff(ms: seq<seq<Frame>>)
    ensures ReceiveAll(WireAll(ms)) == ms <==> forall i :: 0 <= i < |ms| ==> |ms[i]| > 0
  {
    ReceivedIsSent(ms);
    NonEmptyKeepsAll(ms);
  }
}
