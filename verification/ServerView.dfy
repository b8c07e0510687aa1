/** The server's picture of a guest's display, after it has processed what the guest sent. */
module ServerView {
  import opened Bytes
  import opened Boxes
  import opened DisplayCore
  import opened Options
  import opened Protocol
  import opened ProtocolTheorems
  import Messages

  /** The listener after the messages on the wire, each followed by its own padding. A message
      that cannot be converted changes nothing. */
  ghost function View(wire: seq<Update>, padding: nat -> seq<byte>): Messages.Seen
    requires AllPublished(wire)
    decreases |wire|
  {
    if |wire| == 0 then Messages.NothingSeen
    else
      var r := Received(wire[|wire| - 1], padding(|wire| - 1));
      var before := View(wire[..|wire| - 1], padding);
      if r.Some? then Messages.AfterMessage(before, r.value) else before
  }

  /** What unpacking one message yields. */
  ghost function Received(u: Update, padding: seq<byte>): Option<seq<uint32>>
    requires Publishable(u)
  {
    Messages.Unpack(Messages.Message(Messages.Fields(Some(u))) + padding)
  }

  /** Pixel formats are 32-bit codes. */
  predicate Formats32(wire: seq<Update>) {
    forall i :: 0 <= i < |wire| && wire[i].DisplaySwitch? ==> 0 <= wire[i].format < 0x1_0000_0000
  }

  ghost predicate AllPublished(wire: seq<Update>) {
    Formats32(wire) && forall i :: 0 <= i < |wire| ==> Publishable(wire[i])
  }

  /** Only updates and switches fit for the slot are sent. */
  lemma WirePublished(run: seq<Step>)
    requires ValidRun(Init, run) && Formats32(Exec(Init, run).wire)
    ensures AllPublished(Exec(Init, run).wire)
  {
    SentInOrder(run);
  }

  function RectOf(v: Messages.Seen): Messages.Rect16 {
    Messages.InvalidRect(v.x, v.y, v.w, v.h)
  }

  /** The surface that a switch announced is the one the listener holds. */
  predicate Knows(v: Messages.Seen, u: Update)
    requires u.DisplaySwitch?
  {
    v.mapped && v.format == u.format && v.width == u.w && v.height == u.h
  }

  /** A switch replaces the surface and keeps the rectangle, an update replaces the rectangle
      and keeps the surface, and an update the wrong way round changes nothing. */
  predicate Shows(u: Update, v: Messages.Seen, before: Messages.Seen) {
    && !u.Invalid?
    && (!Messages.RightWayRound(u) ==> v == before)
    && (u.DisplayUpdate? ==>
          && (Messages.RightWayRound(u) ==> Messages.Same(RectOf(v), u.box))
          && v.format == before.format && v.width == before.width && v.height == before.height && v.mapped == before.mapped)
    && (u.DisplaySwitch? ==> Knows(v, u) && RectOf(v) == RectOf(before))
  }

  lemma ViewSnoc(wire: seq<Update>, padding: nat -> seq<byte>)
    requires AllPublished(wire) && |wire| > 0
    ensures AllPublished(wire[..|wire| - 1])
    ensures Shows(wire[|wire| - 1], View(wire, padding), View(wire[..|wire| - 1], padding))
  {
    hide Messages.Message, Messages.Unpack;
    var u := wire[|wire| - 1];
    assert AllPublished(wire[..|wire| - 1]);
    Messages.UpdateArrivesIff(u, padding(|wire| - 1));
  }

  /** The listener knows the last switch it was sent. */
  lemma {:induction false} ViewOfSwitch(wire: seq<Update>, padding: nat -> seq<byte>)
    requires AllPublished(wire) && LatestSwitch(wire).DisplaySwitch?
    ensures Knows(View(wire, padding), LatestSwitch(wire))
    decreases |wire|
  {
    hide View, Messages.InvalidRect;
    var n := |wire| - 1;
    ViewSnoc(wire, padding);
    if !wire[n].DisplaySwitch? {
      ViewOfSwitch(wire[..n], padding);
    }
  }

  /** Over every run, and after every update that the server receives in it: the rectangle it
      will repaint is the published box, and it lies on the surface that the server knows. An
      update the wrong way round changes nothing. */
  lemma RepaintsOnKnownSurface(run: seq<Step>, i: nat, padding: nat -> seq<byte>)
    requires ValidRun(Init, run) && Formats32(Exec(Init, run).wire)
    requires i < |Exec(Init, run).wire| && Exec(Init, run).wire[i].DisplayUpdate?
    ensures var wire := Exec(Init, run).wire;
            && AllPublished(wire[..i]) && AllPublished(wire[..i + 1])
            && var v := View(wire[..i + 1], padding);
               && v.mapped && OnGrid(wire[i].box, v.width, v.height)
               && (if Messages.RightWayRound(wire[i]) then Messages.Same(RectOf(v), wire[i].box)
                   else v == View(wire[..i], padding))
  {
    hide View, Messages.InvalidRect, ValidRun, Exec;
    var wire := Exec(Init, run).wire;
    WirePublished(run);
    WireUpdatesFollowTheirSwitch(run, i);
    var m :| 0 <= m < i && wire[m].DisplaySwitch? && 0 <= wire[m].w && 0 <= wire[m].h
             && OnGrid(wire[i].box, wire[m].w, wire[m].h) && forall n :: m < n < i ==> !wire[n].DisplaySwitch?;
    var w := wire[..i + 1];
    assert AllPublished(w) && w[..i] == wire[..i];
    ViewSnoc(w, padding);
    LatestSwitchIs(wire[..i], m);
    ViewOfSwitch(wire[..i], padding);
  }

  /** Once nothing is pending, the server holds the format and the size of the guest's current
      surface. */
  lemma ServerKnowsSurface(run: seq<Step>, padding: nat -> seq<byte>)
    requires ValidRun(Init, run) && Formats32(Exec(Init, run).wire)
    requires var s := Exec(Init, run); Quiescent(s) && s.core.shmFd >= 0
    ensures var s := Exec(Init, run);
            && AllPublished(s.wire)
            && var v := View(s.wire, padding);
               && v.mapped && v.format == s.core.surface.format
               && v.width == s.core.surface.width && v.height == s.core.surface.height
  {
    hide View;
    WirePublished(run);
    QuiescentAnnouncesSurface(run);
    ViewOfSwitch(Exec(Init, run).wire, padding);
  }

  /** Message `j` was sent after `at` others had been put into the slot, and the server rebuilds
      it as a switch or as a box that covers the pixel. */
  ghost predicate Reaches(s: Sys, j: nat, at: nat, x: int, y: int, padding: seq<byte>)
    requires j < |s.wire|
  {
    && j < |s.sentAt| && at <= s.sentAt[j]
    && (s.wire[j].DisplaySwitch? || (s.wire[j].DisplayUpdate? && Covers(s.wire[j].box, x, y)))
    && Publishable(s.wire[j])
    && var r := Received(s.wire[j], padding); r.Some? && Messages.Conveys(r.value, s.wire[j])
  }

  /** No reported damage is lost on the way to the server: once nothing is pending, every
      reported on-surface pixel was followed by a message that the server rebuilds, either as a
      box that covers the pixel or as a switch. */
  lemma DamageReachesServer(run: seq<Step>, i: nat, x: int, y: int, padding: seq<byte>) returns (j: nat)
    requires ValidRun(Init, run) && i < |Exec(Init, run).damage| && Quiescent(Exec(Init, run))
    requires Formats32(Exec(Init, run).wire)
    requires var d := Exec(Init, run).damage[i]; Covers(d.box, x, y) && 0 <= x < d.w && 0 <= y < d.h
    ensures var s := Exec(Init, run); j < |s.wire| && Reaches(s, j, s.damage[i].at, x, y, padding)
  {
    hide Messages.Message, Messages.Unpack, Messages.Conveys, ValidRun, Exec;
    var s := Exec(Init, run);
    var at := s.damage[i].at;
    WirePublished(run);
    QuiescentMeansSent(run, i, x, y);
    j :| 0 <= j < |s.wire| && j < |s.sentAt| && at <= s.sentAt[j] &&
      (s.wire[j].DisplaySwitch? || (s.wire[j].DisplayUpdate? && Covers(s.wire[j].box, x, y)));
    Messages.WireMessagesArrive(run, j, padding);
  }
}
