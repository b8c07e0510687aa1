/** The server's run loop: it drains the outgoing queue towards guests whose connection it
    has learnt from their traffic, and takes in one message per round. */
module Broker {
  import opened Bytes
  import opened Multipart
  import opened Options
  import Messages

  type Uuid = seq<byte>
  type ConnId = seq<byte>

  datatype Item = Item(vec: seq<uint16>, uuid: Uuid)

  /** How the attempt to send a multipart message ended. */
  datatype Delivery = Delivered | Refused | Threw

  datatype Outcome = Sent(id: ConnId) | NoConnection | NotSent

  /** `MessageQueue`. */
  class MessageQueue {
    var items: seq<Item>

    constructor ()
      ensures items == []
    {
      items := [];
    }

    method IsEmpty() returns (empty: bool)
      ensures empty <==> items == []
    {
      empty := items == [];
    }

    method Enqueue(item: Item)
      modifies this
      ensures items == old(items) + [item]
    {
      items := items + [item];
    }

    /** The oldest item; on an empty queue the caller waits, and nothing is taken. */
    method Dequeue() returns (item: Option<Item>)
      modifies this
      ensures if old(items) == [] then item == None && items == []
              else item.Some? && [item.value] + items == old(items)
    {
      if items == [] {
        return None;
      }
      item := Some(items[0]);
      items := items[1..];
    }
  }

  /** The three frames of `sendMessage`: whom to route to, for which guest, and the packed
      vector. */
  function Frames(id: ConnId, item: Item): seq<Frame>
    requires Sendable(item)
  {
    [id, item.uuid, Messages.Message(item.vec)]
  }

  function OutcomeOf(connections: map<Uuid, ConnId>, item: Item, d: Delivery): Outcome {
    if item.uuid !in connections then NoConnection
    else if d.Delivered? then Sent(connections[item.uuid])
    else NotSent
  }

  predicate Sendable(item: Item) { |item.vec| <= 0xFFFFFFFF }

  /** The messages that went out, in order. */
  function SentMessages(items: seq<Item>, outcomes: seq<Outcome>): seq<seq<Frame>>
    requires |items| == |outcomes| && forall i :: 0 <= i < |items| ==> Sendable(items[i])
    decreases |items|
  {
    if |items| == 0 then []
    else
      var n := |items| - 1;
      SentMessages(items[..n], outcomes[..n]) + if outcomes[n].Sent? then [Frames(outcomes[n].id, items[n])] else []
  }

  class Worker {
    var listeners: set<Uuid>
    var connections: map<Uuid, ConnId>
    const queue: MessageQueue
    const socket: Socket

    constructor ()
      ensures listeners == {} && connections == map[] && fresh(queue) && fresh(socket) && queue.items == [] && socket.queue == []
    {
      listeners, connections := {}, map[];
      queue := new MessageQueue();
      socket := new Socket();
    }

    /** `sendMessage`; `d` is what the socket does with the message. */
    method SendMessage(item: Item, d: Delivery) returns (o: Outcome)
      requires Sendable(item)
      modifies socket
      ensures o == OutcomeOf(connections, item, d)
      ensures item.uuid in connections && d.Delivered? ==>
                && o == Sent(connections[item.uuid])
                && socket.queue == old(socket.queue) + Wire([connections[item.uuid], item.uuid, Messages.Message(item.vec)])
      ensures item.uuid !in connections ==> o == NoConnection
      ensures item.uuid !in connections || !d.Delivered? ==> socket.queue == old(socket.queue) && !o.Sent?
      ensures socket.queue == old(socket.queue) + if o.Sent? then Wire(Frames(o.id, item)) else []
    {
      hide Messages.Message;
      if item.uuid !in connections {
        return NoConnection;
      }
      var msg := new Message();
      var id := connections[item.uuid];
      msg.parts := [id];
      msg.parts := msg.parts + [item.uuid];
      msg.parts := msg.parts + [Messages.Message(item.vec)];
      if d.Threw? {
        return NotSent;
      }
      var ok := msg.Send(socket, if d.Delivered? then 3 else 0);
      return if ok then Sent(id) else NotSent;
    }

    /** What the run loop does with a received message: only three frames from a registered
        guest teach it a connection. */
    method Receive(parts: seq<Frame>) returns (accepted: bool)
      modifies this
      ensures accepted <==> |parts| == 3 && parts[1] in old(listeners)
      ensures connections == if accepted then old(connections)[parts[1] := parts[0]] else old(connections)
      ensures listeners == old(listeners)
    {
      if |parts| != 3 {
        return false;
      }
      if parts[1] !in listeners {
        return false;
      }
      connections := connections[parts[1] := parts[0]];
      return true;
    }

    /** The inner loop of `run`, undisturbed: `ds` is what the socket does with one message
        after the other; an exception ends the round. */
    method DrainQueue(ds: seq<Delivery>) returns (done: nat, outcomes: seq<Outcome>)
      requires |ds| == |queue.items| && forall i :: 0 <= i < |queue.items| ==> Sendable(queue.items[i])
      modifies queue, socket
      ensures done == |outcomes| <= |ds| && queue.items == old(queue.items)[done..]
      ensures forall i :: 0 <= i < done ==> outcomes[i] == OutcomeOf(connections, old(queue.items)[i], ds[i])
      ensures socket.queue == old(socket.queue) + WireAll(SentMessages(old(queue.items)[..done], outcomes))
      ensures done < |ds| ==> done > 0 && ds[done - 1].Threw? && old(queue.items)[done - 1].uuid in connections
    {
      hide Frames, SentMessages, WireAll, Wire;
      done, outcomes := 0, [];
      ghost var items := queue.items;
      ghost var wire := socket.queue;
      NothingSent(wire);
      var empty := queue.IsEmpty();
      while !empty
        invariant done == |outcomes| <= |ds| && queue.items == items[done..]
        invariant empty <==> done == |ds|
        invariant forall i :: 0 <= i < done ==> outcomes[i] == OutcomeOf(connections, items[i], ds[i])
        invariant socket.queue == wire + WireAll(SentMessages(items[..done], outcomes))
        decreases |ds| - done
      {
        var next := queue.Dequeue();
        var item := next.value;
        assert item == items[done] && items[..done] + [item] == items[..done + 1];
        var o := SendMessage(item, ds[done]);
        SentSnoc(wire, items[..done], outcomes, item, o);
        outcomes := outcomes + [o];
        done := done + 1;
        if o.NotSent? && ds[done - 1].Threw? {
          return;
        }
        empty := queue.IsEmpty();
      }
    }
  }

  lemma NothingSent(wire: seq<Part>)
    ensures wire + WireAll(SentMessages([], [])) == wire
  {
  }

  lemma SentSnoc(wire: seq<Part>, items: seq<Item>, outcomes: seq<Outcome>, item: Item, o: Outcome)
    requires |items| == |outcomes| && (forall i :: 0 <= i < |items| ==> Sendable(items[i])) && Sendable(item)
    ensures wire + WireAll(SentMessages(items, outcomes)) + (if o.Sent? then Wire(Frames(o.id, item)) else []) ==
            wire + WireAll(SentMessages(items + [item], outcomes + [o]))
  {
    hide Frames, WireAll, Wire;
    assert (items + [item])[..|items|] == items && (outcomes + [o])[..|items|] == outcomes;
    var before := SentMessages(items, outcomes);
    if o.Sent? {
      assert SentMessages(items + [item], outcomes + [o]) == before + [Frames(o.id, item)];
      WireAllSnoc(before, Frames(o.id, item));
    } else {
      assert SentMessages(items + [item], outcomes + [o]) == before + [] == before;
    }
  }

  // ----- Runs: producers, registrations and the loop, in any interleaving -----

  /** Where the loop stands: at the emptiness check, between check and dequeue, or polling. */
  datatype Pc = Checking | Committed | Polling

  /** A dequeued item, what became of it, and how many messages had been accepted by then. */
  datatype Entry = Entry(item: Item, outcome: Outcome, at: nat)

  datatype Sys = Sys(
    listeners: set<Uuid>,
    connections: map<Uuid, ConnId>,
    queue: seq<Item>,
    pc: Pc,
    enqueued: seq<Item>,              // history: everything ever queued
    wire: seq<Part>,                  // what the socket was given
    log: seq<Entry>,                  // history: everything ever dequeued
    accepted: seq<(Uuid, ConnId)>,    // history: messages taken from registered guests
    registered: set<Uuid>)            // history: every guest ever registered

  datatype Step =
    | Enqueue(item: Item)             // a listener's thread
    | Register(uuid: Uuid)
    | Unregister(uuid: Uuid)
    | Check                           // the loop looks whether the queue is empty
    | SendNext(d: Delivery)           // the loop dequeues and sends
    | Poll(parts: seq<Frame>)         // the loop receives; no frames if nothing came

  const Init := Sys({}, map[], [], Checking, [], [], [], [], {})

  predicate Enabled(s: Sys, step: Step) {
    match step
    case Enqueue(item) => Sendable(item)
    case Check => s.pc.Checking?
    case SendNext(_) => s.pc.Committed? && |s.queue| > 0 && Sendable(s.queue[0])
    case Poll(_) => s.pc.Polling?
    case _ => true
  }

  predicate Accepts(s: Sys, parts: seq<Frame>) {
    |parts| == 3 && parts[1] in s.listeners
  }

  function Next(s: Sys, step: Step): Sys
    requires Enabled(s, step)
  {
    match step
    case Enqueue(item) => s.(queue := s.queue + [item], enqueued := s.enqueued + [item])
    case Register(u) => s.(listeners := s.listeners + {u}, registered := s.registered + {u})
    case Unregister(u) => s.(listeners := s.listeners - {u})
    case Check => s.(pc := if |s.queue| == 0 then Polling else Committed)
    case SendNext(d) =>
      var o := OutcomeOf(s.connections, s.queue[0], d);
      s.(queue := s.queue[1..], log := s.log + [Entry(s.queue[0], o, |s.accepted|)],
         wire := s.wire + if o.Sent? then Wire(Frames(o.id, s.queue[0])) else [],
         pc := if o.NotSent? && d.Threw? then Polling else Checking)
    case Poll(parts) =>
      if Accepts(s, parts)
      then s.(pc := Checking, connections := s.connections[parts[1] := parts[0]], accepted := s.accepted + [(parts[1], parts[0])])
      else s.(pc := Checking)
  }

  /** The connection of the latest accepted message from a guest. */
  function Latest(accepted: seq<(Uuid, ConnId)>, u: Uuid): Option<ConnId>
    decreases |accepted|
  {
    if |accepted| == 0 then None
    else if accepted[|accepted| - 1].0 == u then Some(accepted[|accepted| - 1].1)
    else Latest(accepted[..|accepted| - 1], u)
  }

  function Items(log: seq<Entry>): seq<Item> {
    seq(|log|, i requires 0 <= i < |log| => log[i].item)
  }

  function Outcomes(log: seq<Entry>): seq<Outcome> {
    seq(|log|, i requires 0 <= i < |log| => log[i].outcome)
  }

  predicate AllSendable(items: seq<Item>) {
    forall i :: 0 <= i < |items| ==> Sendable(items[i])
  }

  /** The messages that a log says went out, in order. */
  function Delivered(log: seq<Entry>): seq<seq<Frame>>
    requires AllSendable(Items(log))
  {
    SentMessages(Items(log), Outcomes(log))
  }

  /** The outcome agrees with what had been learnt when the item was dequeued. */
  predicate Routed(e: Entry, accepted: seq<(Uuid, ConnId)>) {
    e.at <= |accepted| &&
    match e.outcome
    case Sent(id) => Latest(accepted[..e.at], e.item.uuid) == Some(id)
    case NoConnection => Latest(accepted[..e.at], e.item.uuid) == None
    case NotSent => Latest(accepted[..e.at], e.item.uuid).Some?
  }

  ghost predicate Inv(s: Sys) {
    && s.enqueued == Items(s.log) + s.queue
    && AllSendable(s.queue) && AllSendable(Items(s.log)) && s.wire == WireAll(Delivered(s.log))
    && (s.pc.Committed? ==> |s.queue| > 0)
    && (forall u :: u in s.connections <==> Latest(s.accepted, u).Some?)
    && (forall u :: u in s.connections ==> Latest(s.accepted, u) == Some(s.connections[u]))
    && s.listeners <= s.registered
    && s.connections.Keys <= s.registered
    && (forall i :: 0 <= i < |s.log| ==> Routed(s.log[i], s.accepted))
  }

  lemma LearnStep(s: Sys, parts: seq<Frame>)
    requires Inv(s) && s.pc.Polling? && Accepts(s, parts)
    ensures Inv(Next(s, Poll(parts)))
  {
    var t := Next(s, Poll(parts));
    assert t.accepted[..|s.accepted|] == s.accepted;
    forall i | 0 <= i < |t.log|
      ensures Routed(t.log[i], t.accepted)
    {
      assert Routed(s.log[i], s.accepted);
      assert t.accepted[..t.log[i].at] == s.accepted[..t.log[i].at];
    }
  }

  lemma SendStep(s: Sys, d: Delivery)
    requires Inv(s) && Enabled(s, SendNext(d))
    ensures Inv(Next(s, SendNext(d)))
  {
    hide Frames, SentMessages, WireAll, Wire;
    var t := Next(s, SendNext(d));
    var o := OutcomeOf(s.connections, s.queue[0], d);
    assert s.accepted[..|s.accepted|] == s.accepted;
    assert Items(t.log) == Items(s.log) + [s.queue[0]];
    assert Outcomes(t.log) == Outcomes(s.log) + [o];
    assert s.queue == [s.queue[0]] + t.queue;
    assert AllSendable(t.queue) && AllSendable(Items(t.log));
    SentSnoc([], Items(s.log), Outcomes(s.log), s.queue[0], o);
    assert [] + WireAll(Delivered(s.log)) == s.wire && [] + WireAll(Delivered(t.log)) == WireAll(Delivered(t.log));
  }

  lemma InvStep(s: Sys, step: Step)
    requires Inv(s) && Enabled(s, step)
    ensures Inv(Next(s, step))
  {
    match step
    case Enqueue(item) => assert s.enqueued + [item] == Items(s.log) + (s.queue + [item]);
    case SendNext(d) => SendStep(s, d);
    case Poll(parts) =>
      if Accepts(s, parts) {
        LearnStep(s, parts);
      }
    case _ =>
  }

  ghost predicate ValidRun(s: Sys, run: seq<Step>)
    decreases |run|
  {
    |run| > 0 ==> Enabled(s, run[0]) && ValidRun(Next(s, run[0]), run[1..])
  }

  ghost function Exec(s: Sys, run: seq<Step>): Sys
    requires ValidRun(s, run)
    decreases |run|
  {
    if |run| == 0 then s else Exec(Next(s, run[0]), run[1..])
  }

  lemma {:induction false} InvRun(s: Sys, run: seq<Step>)
    requires Inv(s) && ValidRun(s, run)
    ensures Inv(Exec(s, run))
    decreases |run|
  {
    if |run| > 0 {
      InvStep(s, run[0]);
      InvRun(Next(s, run[0]), run[1..]);
    }
  }

  /** Conservation and routing over every run: the queued items are, in order, those already
      dequeued followed by those still waiting; each sent item went to the connection of the
      latest message then accepted from its guest; connections belong to registered guests. */
  lemma OutgoingConservation(run: seq<Step>)
    requires ValidRun(Init, run)
    ensures var s := Exec(Init, run);
            && s.enqueued == Items(s.log) + s.queue
            && (forall i :: 0 <= i < |s.log| ==> Routed(s.log[i], s.accepted))
            && s.connections.Keys <= s.registered
  {
    InvRun(Init, run);
  }

  /** After its emptiness check the loop's dequeue never waits, whatever the producers do. */
  lemma DequeueNeverBlocks(run: seq<Step>, d: Delivery)
    requires ValidRun(Init, run) && Exec(Init, run).pc.Committed?
    ensures Enabled(Exec(Init, run), SendNext(d))
  {
    InvRun(Init, run);
  }

  lemma {:induction false} SentNotEmpty(items: seq<Item>, outcomes: seq<Outcome>, k: nat)
    requires |items| == |outcomes| && AllSendable(items) && k < |SentMessages(items, outcomes)|
    ensures |SentMessages(items, outcomes)[k]| > 0
    decreases |items|
  {
    hide Messages.Message;
    var n := |items| - 1;
    var before := SentMessages(items[..n], outcomes[..n]);
    if k < |before| {
      SentNotEmpty(items[..n], outcomes[..n], k);
    } else {
      assert SentMessages(items, outcomes)[k] == Frames(outcomes[n].id, items[n]);
    }
  }

  lemma InvWire(s: Sys)
    requires Inv(s)
    ensures ReceiveAll(s.wire) == Delivered(s.log)
  {
    hide SentMessages, ReceiveAll, WireAll;
    var ms := Delivered(s.log);
    forall i | 0 <= i < |ms|
      ensures |ms[i]| > 0
    {
      SentNotEmpty(Items(s.log), Outcomes(s.log), i);
    }
    FramingIff(ms);
  }

  /** Over every run, what the socket was given is taken apart into exactly the messages that
      were sent, in the order of their dequeuing. */
  lemma WireHoldsSentMessages(run: seq<Step>)
    requires ValidRun(Init, run)
    ensures var s := Exec(Init, run); AllSendable(Items(s.log)) && ReceiveAll(s.wire) == Delivered(s.log)
  {
    InvRun(Init, run);
    InvWire(Exec(Init, run));
  }

  /** A sent item's message stands behind those of the items sent before it. */
  lemma {:induction false} SentAt(items: seq<Item>, outcomes: seq<Outcome>, i: nat)
    requires i < |items| == |outcomes| && AllSendable(items) && outcomes[i].Sent?
    ensures var k := |SentMessages(items[..i], outcomes[..i])|;
            var ms := SentMessages(items, outcomes);
            k < |ms| && ms[k] == Frames(outcomes[i].id, items[i])
    decreases |items|
  {
    hide Frames;
    var n := |items| - 1;
    if i < n {
      SentAt(items[..n], outcomes[..n], i);
      assert items[..n][..i] == items[..i] && outcomes[..n][..i] == outcomes[..i];
    }
  }

  /** A queued input event that is sent is received, behind the messages sent before it, as
      three frames: for the latest connection of its guest, for that guest, and with a body that
      fires exactly that event's callback. */
  lemma SentEventReachesGuest(run: seq<Step>, i: nat, e: Messages.Event)
    requires ValidRun(Init, run) && i < |Exec(Init, run).log|
    requires var x := Exec(Init, run).log[i]; x.outcome.Sent? && x.item.vec == Messages.EventFields(e)
    ensures var s := Exec(Init, run);
            var x := s.log[i];
            && AllSendable(Items(s.log[..i])) && x.at <= |s.accepted|
            && var k := |Delivered(s.log[..i])|;
               && k < |ReceiveAll(s.wire)| && |ReceiveAll(s.wire)[k]| == 3
               && Latest(s.accepted[..x.at], x.item.uuid) == Some(ReceiveAll(s.wire)[k][0])
               && ReceiveAll(s.wire)[k][1] == x.item.uuid
               && Messages.Incoming(ReceiveAll(s.wire)[k][2]) == [Messages.Expected(e)]
  {
    hide Messages.Message, Messages.Incoming, ReceiveAll, SentMessages, ValidRun, Exec;
    var s := Exec(Init, run);
    OutgoingConservation(run);
    WireHoldsSentMessages(run);
    var x := s.log[i];
    assert Routed(x, s.accepted);
    SentAt(Items(s.log), Outcomes(s.log), i);
    assert Items(s.log[..i]) == Items(s.log)[..i] && Outcomes(s.log[..i]) == Outcomes(s.log)[..i];
    Messages.EventArrives(e, []);
    assert Messages.Message(Messages.EventFields(e)) + [] == Messages.Message(Messages.EventFields(e));
  }

  // ----- What each step does, and that the loop gets things done -----

  /** The steps of the other threads and the loop's emptiness check. */
  lemma StepEffects(s: Sys, item: Item, u: Uuid)
    requires Sendable(item)
    ensures var t := Next(s, Enqueue(item)); t == s.(queue := s.queue + [item], enqueued := s.enqueued + [item])
    ensures var t := Next(s, Register(u)); t == s.(listeners := s.listeners + {u}, registered := s.registered + {u})
    ensures var t := Next(s, Unregister(u)); t == s.(listeners := s.listeners - {u})
    ensures s.pc.Checking? ==>
              var t := Next(s, Check);
              t == s.(pc := t.pc) && (s.queue == [] ==> t.pc == Polling) && (s.queue != [] ==> t.pc == Committed)
  {
  }

  /** A received message has the effect that `Worker.Receive` is proved to have. */
  lemma PollIsReceive(s: Sys, parts: seq<Frame>)
    requires s.pc.Polling?
    ensures var t := Next(s, Poll(parts));
            if |parts| == 3 && parts[1] in s.listeners
            then t == s.(pc := Checking, connections := s.connections[parts[1] := parts[0]],
                         accepted := s.accepted + [(parts[1], parts[0])])
            else t == s.(pc := Checking)
  {
  }

  /** What an item becomes that the socket takes: three frames for a guest with a connection, and
      nothing for any other. */
  function Outgoing(connections: map<Uuid, ConnId>, item: Item): seq<seq<Frame>>
    requires Sendable(item)
  {
    if item.uuid in connections then [[connections[item.uuid], item.uuid, Messages.Message(item.vec)]] else []
  }

  /** Sending the oldest item: if the socket takes messages, the wire gains exactly what the item
      becomes; if not, the wire stays as it was. */
  lemma SendDelivers(s: Sys, d: Delivery)
    requires Inv(s) && Enabled(s, SendNext(d))
    ensures var t := Next(s, SendNext(d));
            && t.queue == s.queue[1..] && t.connections == s.connections && t.listeners == s.listeners
            && ReceiveAll(t.wire) == ReceiveAll(s.wire) + (if d.Delivered? then Outgoing(s.connections, s.queue[0]) else [])
            && (t.pc.Polling? <==> d.Threw? && s.queue[0].uuid in s.connections) && (!t.pc.Polling? ==> t.pc.Checking?)
  {
    hide Messages.Message, ReceiveAll, WireAll, Wire;
    var t := Next(s, SendNext(d));
    SendStep(s, d);
    InvWire(s);
    InvWire(t);
    var o := OutcomeOf(s.connections, s.queue[0], d);
    assert Items(t.log)[..|s.log|] == Items(s.log) && Outcomes(t.log)[..|s.log|] == Outcomes(s.log);
    assert Items(t.log)[|s.log|] == s.queue[0] && Outcomes(t.log)[|s.log|] == o;
  }

  /** The loop's steps for `n` items that the socket takes. */
  function Drain(n: nat): seq<Step> {
    if n == 0 then [] else [Check, SendNext(Delivery.Delivered)] + Drain(n - 1)
  }

  function AllOutgoing(connections: map<Uuid, ConnId>, items: seq<Item>): seq<seq<Frame>>
    requires AllSendable(items)
    decreases |items|
  {
    if |items| == 0 then []
    else
      assert AllSendable(items[1..]);
      Outgoing(connections, items[0]) + AllOutgoing(connections, items[1..])
  }

  /** Progress: from every state within the invariant, as long as the socket takes messages, the
      loop empties the queue, and the wire gains the message of every item whose guest has a
      connection, in order. */
  lemma {:induction false} DrainDelivers(s: Sys)
    requires Inv(s) && s.pc.Checking?
    ensures AllSendable(s.queue) && ValidRun(s, Drain(|s.queue|))
    ensures var t := Exec(s, Drain(|s.queue|));
            && t.queue == [] && t.pc.Checking? && t.connections == s.connections
            && ReceiveAll(t.wire) == ReceiveAll(s.wire) + AllOutgoing(s.connections, s.queue)
    decreases |s.queue|
  {
    hide Outgoing, ReceiveAll, Inv, Next, Enabled, AllOutgoing;
    InvSendable(s);
    if |s.queue| == 0 {
      NothingOutgoing(s);
    } else {
      var t, u := TakeOne(s);
      DrainDelivers(u);
      TwoSteps(s, t, u, Drain(|u.queue|));
      assert Drain(|s.queue|) == [Check, SendNext(Delivery.Delivered)] + Drain(|u.queue|);
      OutgoingCons(s.connections, s.queue);
      Associate(ReceiveAll(s.wire), Outgoing(s.connections, s.queue[0]), AllOutgoing(s.connections, s.queue[1..]));
    }
  }

  lemma Associate(a: seq<seq<Frame>>, b: seq<seq<Frame>>, c: seq<seq<Frame>>)
    ensures a + b + c == a + (b + c)
  {
  }

  lemma InvSendable(s: Sys)
    requires Inv(s)
    ensures AllSendable(s.queue)
  {
  }

  lemma NothingOutgoing(s: Sys)
    requires s.queue == []
    ensures ReceiveAll(s.wire) + AllOutgoing(s.connections, s.queue) == ReceiveAll(s.wire)
  {
    hide ReceiveAll;
  }

  lemma OutgoingCons(connections: map<Uuid, ConnId>, items: seq<Item>)
    requires AllSendable(items) && |items| > 0
    ensures Sendable(items[0]) && AllSendable(items[1..])
    ensures AllOutgoing(connections, items) == Outgoing(connections, items[0]) + AllOutgoing(connections, items[1..])
  {
  }

  lemma TwoSteps(s: Sys, t: Sys, u: Sys, rest: seq<Step>)
    requires Enabled(s, Check) && t == Next(s, Check)
    requires Enabled(t, SendNext(Delivery.Delivered)) && u == Next(t, SendNext(Delivery.Delivered)) && ValidRun(u, rest)
    ensures var run := [Check, SendNext(Delivery.Delivered)] + rest; ValidRun(s, run) && Exec(s, run) == Exec(u, rest)
  {
    hide Next, Enabled;
    var send := SendNext(Delivery.Delivered);
    var run := [Check, send] + rest;
    assert run[1..] == [send] + rest && ([send] + rest)[1..] == rest;
    assert ValidRun(t, [send] + rest) && Exec(t, [send] + rest) == Exec(u, rest);
  }

  /** One round of check and send. */
  lemma TakeOne(s: Sys) returns (t: Sys, u: Sys)
    requires Inv(s) && s.pc.Checking? && |s.queue| > 0
    ensures Enabled(s, Check) && t == Next(s, Check) && Enabled(t, SendNext(Delivery.Delivered)) && u == Next(t, SendNext(Delivery.Delivered))
    ensures Inv(u) && u.pc.Checking? && u.queue == s.queue[1..] && u.connections == s.connections
    ensures ReceiveAll(u.wire) == ReceiveAll(s.wire) + Outgoing(s.connections, s.queue[0])
  {
    hide Outgoing, ReceiveAll;
    t := Next(s, Check);
    InvStep(s, Check);
    u := Next(t, SendNext(Delivery.Delivered));
    InvStep(t, SendNext(Delivery.Delivered));
    SendDelivers(t, Delivery.Delivered);
  }

  /** Over every run: once a registered guest has been heard from, an item queued for it goes out
      to the connection it was heard on. */
  lemma HeardGuestIsAnswered(run: seq<Step>, id: ConnId, data: Frame, item: Item)
    requires ValidRun(Init, run) && Sendable(item)
    requires var s := Exec(Init, run); s.pc.Polling? && s.queue == []
    ensures var s := Exec(Init, run);
            var more := [Register(item.uuid), Poll([id, item.uuid, data]), Enqueue(item), Check, SendNext(Delivery.Delivered)];
            && ValidRun(s, more)
            && ReceiveAll(Exec(s, more).wire) == ReceiveAll(s.wire) + [[id, item.uuid, Messages.Message(item.vec)]]
  {
    hide Messages.Message, ReceiveAll, Inv, Next, Enabled;
    var s := Exec(Init, run);
    InitInv();
    InvRun(Init, run);
    var a, b, c := Hear(s, id, data, item);
    var t, u := TakeOne(c);
    Steps(b, c, t, u, item);
    var tail := [Enqueue(item), Check, SendNext(Delivery.Delivered)];
    var poll := Poll([id, item.uuid, data]);
    var more := [Register(item.uuid), poll, Enqueue(item), Check, SendNext(Delivery.Delivered)];
    assert more[1..] == [poll] + tail && ([poll] + tail)[1..] == tail;
    assert ValidRun(a, [poll] + tail) && Exec(a, [poll] + tail) == u;
  }

  lemma InitInv()
    ensures Inv(Init)
  {
  }

  lemma Hear(s: Sys, id: ConnId, data: Frame, item: Item) returns (a: Sys, b: Sys, c: Sys)
    requires Inv(s) && s.pc.Polling? && s.queue == [] && Sendable(item)
    ensures Enabled(s, Register(item.uuid)) && a == Next(s, Register(item.uuid))
    ensures Enabled(a, Poll([id, item.uuid, data])) && b == Next(a, Poll([id, item.uuid, data]))
    ensures Enabled(b, Enqueue(item)) && c == Next(b, Enqueue(item)) && Enabled(c, Check)
    ensures Inv(c) && c.pc.Checking? && c.queue == [item] && c.wire == s.wire
    ensures item.uuid in c.connections && c.connections[item.uuid] == id
  {
    hide Inv;
    a := Next(s, Register(item.uuid));
    InvStep(s, Register(item.uuid));
    b := Next(a, Poll([id, item.uuid, data]));
    InvStep(a, Poll([id, item.uuid, data]));
    c := Next(b, Enqueue(item));
    InvStep(b, Enqueue(item));
  }

  lemma Steps(b: Sys, c: Sys, t: Sys, u: Sys, item: Item)
    requires Enabled(b, Enqueue(item)) && c == Next(b, Enqueue(item)) && Enabled(c, Check) && t == Next(c, Check)
    requires Enabled(t, SendNext(Delivery.Delivered)) && u == Next(t, SendNext(Delivery.Delivered))
    ensures var run := [Enqueue(item), Check, SendNext(Delivery.Delivered)]; ValidRun(b, run) && Exec(b, run) == u
  {
    hide Next, Enabled;
    var send := SendNext(Delivery.Delivered);
    assert [Enqueue(item), Check, send][1..] == [Check, send] && [Check, send][1..] == [send] && [send][1..] == [];
    assert ValidRun(u, []) && Exec(u, []) == u;
    assert ValidRun(t, [send]) && Exec(t, [send]) == u;
    assert ValidRun(c, [Check, send]) && Exec(c, [Check, send]) == u;
  }
}
