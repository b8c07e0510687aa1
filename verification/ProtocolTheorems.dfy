/** What the step system guarantees over whole runs. */
module ProtocolTheorems {
  import opened Bytes
  import opened Boxes
  import opened DisplayCore
  import opened Protocol

  /** Mirror: in every reachable state a pixel whose shared-memory copy is stale lies in the
      pending dirty box, or its change has not been reported yet. */
  lemma MirrorTheorem(run: seq<Step>, x: int, y: int)
    requires ValidRun(Init, run)
    ensures var s := Exec(Init, run);
            && ValidCore(s.core)
            && (OnSurface(s.core.surface, x, y) && !Synced(s.core, x, y) ==>
                  (x, y) in s.unreported || DirtyCovers(s, x, y))
  {
    InvInit();
    InvRun(Init, run);
  }

  /** After a refresh that got the lock, with every change reported, the shared memory holds
      exactly the surface, byte for byte. */
  lemma RefreshMakesExactCopy(run: seq<Step>)
    requires ValidRun(Init, run)
    requires var s := Exec(Init, run); Enabled(s, DoRefresh(true)) && s.unreported == {} && s.core.shmFd >= 0
    ensures var c := Next(Exec(Init, run), DoRefresh(true)).core;
            |c.surface.data| <= |c.shm| && c.shm[..|c.surface.data|] == c.surface.data
  {
    var s := Exec(Init, run);
    InvInit();
    InvRun(Init, run);
    InvStep(s, DoRefresh(true));
    RefreshMirror(s, true);
    AllSynced(Next(s, DoRefresh(true)).core);
  }

  lemma AllSynced(c: Core)
    requires ValidCore(c) && c.shmFd >= 0
    requires forall x, y :: OnSurface(c.surface, x, y) ==> Synced(c, x, y)
    ensures |c.surface.data| <= |c.shm| && c.shm[..|c.surface.data|] == c.surface.data
  {
    SurfaceFitsShm(c.surface);
    forall i | 0 <= i < |c.surface.data|
      ensures c.shm[i] == c.surface.data[i]
    {
      var step := Scanline(c.surface);
      ByteOfPixel(c.surface, i);
      var x, y, k := (i % step) / PIXEL_SIZE, i / step, (i % step) % PIXEL_SIZE;
      assert Synced(c, x, y);
      PixelInRow(c.surface.width, c.surface.height, x, y);
      assert PixelAt(c.shm, c.surface, x, y)[k] == PixelAt(c.surface.data, c.surface, x, y)[k];
    }
  }

  lemma ByteOfPixel(s: Surface, i: nat)
    requires ValidSurface(s) && i < |s.data|
    ensures Scanline(s) > 0
    ensures var step := Scanline(s);
            var x, y, k := (i % step) / PIXEL_SIZE, i / step, (i % step) % PIXEL_SIZE;
            OnSurface(s, x, y) && 0 <= k < PIXEL_SIZE && i == Offset(s.width, x, y) + k
  {
    var step := Scanline(s);
    assert step > 0;
    var y := i / step;
    assert i == y * step + i % step;
    if y >= s.height {
      Scale(s.height, y, step);
    }
  }

  /** The mailbox as seen from outside: what was sent is what was put into the slot, in
      order and without repetition; a message that is neither sent nor on its way was
      overwritten by the very next one, and that one is a switch. */
  lemma SentInOrder(run: seq<Step>)
    requires ValidRun(Init, run)
    ensures var s := Exec(Init, run);
            && (s.core.outReady <==> !s.core.out.Invalid?)
            && !s.core.dirty.DisplaySwitch?
            && |s.wire| == |s.sentAt|
            && (forall i :: 0 <= i < |s.wire| ==> s.sentAt[i] < |s.published| && s.wire[i] == s.published[s.sentAt[i]])
            && (forall i, j :: 0 <= i < j < |s.sentAt| ==> s.sentAt[i] < s.sentAt[j])
            && (forall k :: 0 <= k < |s.published| && !Live(s, k) ==>
                  k + 1 < |s.published| && s.published[k + 1].DisplaySwitch?)
            && (forall i :: 0 <= i < |s.wire| ==> Publishable(s.wire[i]))
  {
    InvInit();
    InvRun(Init, run);
  }

  /** From any switch on, some later switch is still on its way or was sent: only a switch
      displaces a switch, and the newest message is never displaced. */
  lemma {:induction false} LiveSwitch(s: Sys, k: nat) returns (j: nat)
    requires Mailbox(s) && k < |s.published| && s.published[k].DisplaySwitch?
    ensures k <= j < |s.published| && s.published[j].DisplaySwitch? && Live(s, j)
    decreases |s.published| - k
  {
    if Live(s, k) {
      j := k;
    } else {
      assert Displaced(s, k);
      j := LiveSwitch(s, k + 1);
    }
  }

  ghost predicate LiveUpdateSince(s: Sys, at: nat, x: int, y: int) {
    exists k :: at <= k < |s.published| && s.published[k].DisplayUpdate? && Covers(s.published[k].box, x, y) && Live(s, k)
  }

  ghost predicate LiveSwitchSince(s: Sys, at: nat) {
    exists k :: at <= k < |s.published| && s.published[k].DisplaySwitch? && Live(s, k)
  }

  /** No lost damage: every on-surface pixel ever reported is still in the dirty box, or in an
      update put into the slot after the report and not displaced from it, or a switch was
      begun after the report and is under way, in the slot, or sent. */
  lemma NoLostDamage(run: seq<Step>, i: nat, x: int, y: int)
    requires ValidRun(Init, run) && i < |Exec(Init, run).damage|
    requires var d := Exec(Init, run).damage[i]; Covers(d.box, x, y) && 0 <= x < d.w && 0 <= y < d.h
    ensures var s := Exec(Init, run);
            || DirtyCovers(s, x, y)
            || LiveUpdateSince(s, s.damage[i].at, x, y)
            || LiveSwitchSince(s, s.damage[i].at)
            || s.pc.Switching?
  {
    var s := Exec(Init, run);
    InvInit();
    InvRun(Init, run);
    var d := s.damage[i];
    assert Accounted(s, d);
    if s.pc.Idle? {
      if SwitchSince(s, d.at) {
        var k :| d.at <= k < |s.published| && s.published[k].DisplaySwitch?;
        var j := LiveSwitch(s, k);
      } else if !DirtyCovers(s, x, y) {
        var k :| d.at <= k < |s.published| && s.published[k].DisplayUpdate? && Covers(s.published[k].box, x, y);
        assert Live(s, k) || Displaced(s, k);
      }
    }
  }

  predicate Quiescent(s: Sys) {
    s.pc.Idle? && s.core.dirty.Invalid? && !s.core.outReady && s.local.Invalid?
  }

  ghost predicate SentSince(s: Sys, at: nat, x: int, y: int) {
    exists j :: 0 <= j < |s.wire| && j < |s.sentAt| && at <= s.sentAt[j] &&
      (s.wire[j].DisplaySwitch? || (s.wire[j].DisplayUpdate? && Covers(s.wire[j].box, x, y)))
  }

  /** Once nothing is pending, every reported on-surface pixel was followed on the wire by an
      update that covers it or by a switch. */
  lemma QuiescentMeansSent(run: seq<Step>, i: nat, x: int, y: int)
    requires ValidRun(Init, run) && i < |Exec(Init, run).damage| && Quiescent(Exec(Init, run))
    requires var d := Exec(Init, run).damage[i]; Covers(d.box, x, y) && 0 <= x < d.w && 0 <= y < d.h
    ensures var s := Exec(Init, run); SentSince(s, s.damage[i].at, x, y)
  {
    var s := Exec(Init, run);
    NoLostDamage(run, i, x, y);
    SentInOrder(run);
    var at := s.damage[i].at;
    var k: nat :| at <= k < |s.published| && Live(s, k) &&
      (s.published[k].DisplaySwitch? || (s.published[k].DisplayUpdate? && Covers(s.published[k].box, x, y)));
    var j :| 0 <= j < |s.sentAt| && s.sentAt[j] == k;
    assert s.wire[j] == s.published[k];
  }

  lemma {:induction false} LatestSwitchAt(p: seq<Update>) returns (j: nat)
    requires LatestSwitch(p).DisplaySwitch?
    ensures j < |p| && p[j] == LatestSwitch(p) && forall i :: j < i < |p| ==> !p[i].DisplaySwitch?
    decreases |p|
  {
    var n := |p| - 1;
    if p[n].DisplaySwitch? {
      j := n;
    } else {
      j := LatestSwitchAt(p[..n]);
    }
  }

  lemma {:induction false} LatestSwitchIs(p: seq<Update>, j: nat)
    requires j < |p| && p[j].DisplaySwitch? && forall i :: j < i < |p| ==> !p[i].DisplaySwitch?
    ensures LatestSwitch(p) == p[j]
    decreases |p|
  {
    if j < |p| - 1 {
      LatestSwitchIs(p[..|p| - 1], j);
    }
  }

  /** A message followed by no switch up to a sent message was itself sent before that one. */
  lemma SentBefore(s: Sys, j: nat, i: nat) returns (m: nat)
    requires Mailbox(s) && i < |s.sentAt| && j < s.sentAt[i]
    requires forall k :: j < k <= s.sentAt[i] ==> !s.published[k].DisplaySwitch?
    ensures m < i && s.sentAt[m] == j
    ensures forall n :: m < n < i ==> !s.wire[n].DisplaySwitch?
  {
    assert Live(s, j) || Displaced(s, j);
    assert !Displaced(s, j);
    m :| 0 <= m < |s.sentAt| && s.sentAt[m] == j;
    assert m < i;
    forall n | m < n < i
      ensures !s.wire[n].DisplaySwitch?
    {
      assert j < s.sentAt[n] < s.sentAt[i];
    }
  }

  /** Message `i` is an update on the grid of the surface that the last switch before it
      announced. */
  ghost predicate FollowsItsSwitch(w: seq<Update>, i: nat)
    requires i < |w| && w[i].DisplayUpdate?
  {
    exists m :: 0 <= m < i && w[m].DisplaySwitch? && 0 <= w[m].w && 0 <= w[m].h && OnGrid(w[i].box, w[m].w, w[m].h)
                && forall n :: m < n < i ==> !w[n].DisplaySwitch?
  }

  /** Reading the wire in order, the receiver always knows the surface that an update is
      about, although the slot drops messages that a switch overtakes. */
  lemma WireUpdatesFollowTheirSwitch(run: seq<Step>, i: nat)
    requires ValidRun(Init, run) && i < |Exec(Init, run).wire| && Exec(Init, run).wire[i].DisplayUpdate?
    ensures FollowsItsSwitch(Exec(Init, run).wire, i)
  {
    var s := Exec(Init, run);
    InvInit();
    InvRun(Init, run);
    var k := s.sentAt[i];
    assert OnAnnounced(s.published, k);
    var j := LatestSwitchAt(s.published[..k]);
    forall x | j < x <= k
      ensures !s.published[x].DisplaySwitch?
    {
      assert x < k ==> s.published[x] == s.published[..k][x];
    }
    var m := SentBefore(s, j, i);
    assert s.wire[m] == s.published[j];
  }

  /** Once nothing is pending, the last switch on the wire describes the current surface. */
  lemma QuiescentAnnouncesSurface(run: seq<Step>)
    requires ValidRun(Init, run)
    requires var s := Exec(Init, run); Quiescent(s) && s.core.shmFd >= 0
    ensures var s := Exec(Init, run);
            LatestSwitch(s.wire) ==
              DisplaySwitch(s.core.shmFd, s.core.surface.format, s.core.surface.width, s.core.surface.height)
  {
    var s := Exec(Init, run);
    InvInit();
    InvRun(Init, run);
    var j := LatestSwitchAt(s.published);
    assert Live(s, j) || Displaced(s, j);
    var m :| 0 <= m < |s.sentAt| && s.sentAt[m] == j;
    forall n | m < n < |s.wire|
      ensures !s.wire[n].DisplaySwitch?
    {
      assert j < s.sentAt[n];
    }
    LatestSwitchIs(s.wire, m);
  }

  /** The remaining steps of the two threads when no new damage arrives. */
  function Settle(s: Sys): seq<Step> {
    (if s.local.Invalid? then [] else [Send])
    + (if s.core.outReady then [Take, Send] else [])
    + (if s.core.dirty.DisplayUpdate? then [DoRefresh(true), Take, Send] else [])
  }

  lemma {:induction false} ExecConcat(s: Sys, a: seq<Step>, b: seq<Step>)
    requires ValidRun(s, a) && ValidRun(Exec(s, a), b)
    ensures ValidRun(s, a + b) && Exec(s, a + b) == Exec(Exec(s, a), b)
    decreases |a|
  {
    if |a| == 0 {
      assert a + b == b;
    } else {
      assert (a + b)[1..] == a[1..] + b;
      ExecConcat(Next(s, a[0]), a[1..], b);
    }
  }

  lemma OneStep(s: Sys, a: Step)
    requires Enabled(s, a)
    ensures ValidRun(s, [a]) && Exec(s, [a]) == Next(s, a)
  {
    var t := Next(s, a);
    assert [a][1..] == [];
    assert ValidRun(t, []) && Exec(t, []) == t;
  }

  lemma TakeSend(s: Sys)
    requires Inv(s) && s.core.outReady && s.local.Invalid?
    ensures ValidRun(s, [Take, Send])
    ensures var t := Exec(s, [Take, Send]);
            && Inv(t) && !t.core.outReady && t.local.Invalid? && t.pc == s.pc && t.unreported == s.unreported
            && t.core == s.core.(out := Invalid, outReady := false)
  {
    var t := Next(s, Take);
    InvStep(s, Take);
    OneStep(s, Take);
    OneStep(t, Send);
    InvStep(t, Send);
    ExecConcat(s, [Take], [Send]);
    assert [Take] + [Send] == [Take, Send];
  }

  lemma SendLocal(s: Sys) returns (t: Sys, a: seq<Step>)
    requires Inv(s)
    ensures a == (if s.local.Invalid? then [] else [Send]) && ValidRun(s, a) && t == Exec(s, a)
    ensures Inv(t) && t.local.Invalid? && t.core == s.core && t.pc == s.pc && t.unreported == s.unreported
  {
    if s.local.Invalid? {
      t, a := s, [];
    } else {
      t, a := Next(s, Send), [Send];
      InvStep(s, Send);
      OneStep(s, Send);
    }
  }

  lemma EmptySlot(s: Sys) returns (t: Sys, a: seq<Step>)
    requires Inv(s) && s.local.Invalid?
    ensures a == (if s.core.outReady then [Take, Send] else []) && ValidRun(s, a) && t == Exec(s, a)
    ensures Inv(t) && t.local.Invalid? && !t.core.outReady && t.pc == s.pc && t.unreported == s.unreported
    ensures t.core.dirty == s.core.dirty && t.core.surface == s.core.surface && t.core.shm == s.core.shm
    ensures t.core.shmFd == s.core.shmFd
  {
    if s.core.outReady {
      TakeSend(s);
      t, a := Exec(s, [Take, Send]), [Take, Send];
    } else {
      t, a := s, [];
    }
  }

  lemma PublishDirty(s: Sys) returns (t: Sys, a: seq<Step>)
    requires Inv(s) && s.pc.Idle? && s.local.Invalid? && !s.core.outReady && s.core.shmFd >= 0
    ensures a == (if s.core.dirty.DisplayUpdate? then [DoRefresh(true), Take, Send] else [])
    ensures ValidRun(s, a) && t == Exec(s, a) && Inv(t) && Quiescent(t) && t.unreported == s.unreported
  {
    if s.core.dirty.DisplayUpdate? {
      var u := Next(s, DoRefresh(true));
      OneStep(s, DoRefresh(true));
      InvStep(s, DoRefresh(true));
      TakeSend(u);
      ExecConcat(s, [DoRefresh(true)], [Take, Send]);
      assert [DoRefresh(true)] + [Take, Send] == [DoRefresh(true), Take, Send];
      t, a := Exec(u, [Take, Send]), [DoRefresh(true), Take, Send];
    } else {
      t, a := s, [];
    }
  }

  lemma QuiescentSynced(t: Sys)
    requires Inv(t) && Quiescent(t)
    ensures ValidCore(t.core)
    ensures forall x, y :: OnSurface(t.core.surface, x, y) && (x, y) !in t.unreported ==> Synced(t.core, x, y)
  {
  }

  lemma SettleFrom(s: Sys) returns (t: Sys)
    requires Inv(s) && s.pc.Idle? && s.core.shmFd >= 0
    ensures ValidRun(s, Settle(s)) && t == Exec(s, Settle(s)) && |Settle(s)| <= 6
    ensures Inv(t) && Quiescent(t) && t.unreported == s.unreported
  {
    hide Inv, Next, Enabled, ValidRun, Exec;
    var t1, a := SendLocal(s);
    var t2, b := EmptySlot(t1);
    var t3, c := PublishDirty(t2);
    ExecConcat(t1, b, c);
    ExecConcat(s, a, b + c);
    assert Settle(s) == a + (b + c);
    t := t3;
  }

  /** Progress: from every reachable state with the display thread idle, at most six more
      steps of the two threads leave nothing pending, and then every reported pixel is
      synchronised in the shared memory. */
  lemma SettleDelivers(run: seq<Step>)
    requires ValidRun(Init, run)
    requires var s := Exec(Init, run); s.pc.Idle? && s.core.shmFd >= 0
    ensures var s := Exec(Init, run);
            && |Settle(s)| <= 6 && ValidRun(s, Settle(s)) && Quiescent(Exec(s, Settle(s)))
            && var t := Exec(s, Settle(s));
               && t.unreported == s.unreported && ValidCore(t.core)
               && forall x, y :: OnSurface(t.core.surface, x, y) && (x, y) !in t.unreported ==> Synced(t.core, x, y)
  {
    hide Inv, Next, Enabled, Settle;
    InvInit();
    InvRun(Init, run);
    var t := SettleFrom(Exec(Init, run));
    QuiescentSynced(t);
  }

  // ----- Boxes that are the right way round -----

  /** Reported corners are on the surface, and a switch keeps that of a pending box there. */
  ghost predicate AnchoredStep(s: Sys, step: Step) {
    match step
    case ReportDamage(x, y, w, h) => Anchored(OfRect(x, y, w, h), s.core.surface.width, s.core.surface.height)
    case BeginSwitch(surface, _) =>
      s.core.dirty.DisplayUpdate? ==> Anchored(s.core.dirty.box, surface.width, surface.height)
    case _ => true
  }

  ghost predicate AnchoredRun(s: Sys, run: seq<Step>)
    requires ValidRun(s, run)
    decreases |run|
  {
    |run| > 0 ==> AnchoredStep(s, run[0]) && AnchoredRun(Next(s, run[0]), run[1..])
  }

  ghost predicate KeepsUpright(s: Sys) {
    && (s.core.dirty.DisplayUpdate? ==> Anchored(s.core.dirty.box, s.core.surface.width, s.core.surface.height))
    && forall k :: 0 <= k < |s.published| && s.published[k].DisplayUpdate? ==> Proper(s.published[k].box)
  }

  lemma UprightStep(s: Sys, step: Step)
    requires Tidy(s) && KeepsUpright(s) && Enabled(s, step) && AnchoredStep(s, step)
    ensures KeepsUpright(Next(s, step))
  {
    var w, h := s.core.surface.width, s.core.surface.height;
    match step
    case ReportDamage(x, y, rw, rh) =>
      if s.core.dirty.DisplayUpdate? {
        JoinAnchored(s.core.dirty.box, OfRect(x, y, rw, rh), w, h);
      }
    case DoRefresh(locked) =>
      RefreshTidy(s.core, locked);
      if s.core.dirty.DisplayUpdate? {
        var b := s.core.dirty.box;
        PublishedProperIff(b, w, h);
        AlignFixed(b.x1);
        AlignFixed(b.y1);
        SelfExpandIsNoOp(Close(b, w, h));
      }
    case _ =>
  }

  lemma {:induction false} UprightRun(s: Sys, run: seq<Step>)
    requires Inv(s) && KeepsUpright(s) && ValidRun(s, run) && AnchoredRun(s, run)
    ensures KeepsUpright(Exec(s, run))
    decreases |run|
  {
    if |run| > 0 {
      UprightStep(s, run[0]);
      InvStep(s, run[0]);
      UprightRun(Next(s, run[0]), run[1..]);
    }
  }

  /** If callers keep corners on the surface, every update on the wire is the right way round. */
  lemma AnchoredRunsSendProperBoxes(run: seq<Step>, i: nat)
    requires ValidRun(Init, run) && AnchoredRun(Init, run)
    requires i < |Exec(Init, run).wire| && Exec(Init, run).wire[i].DisplayUpdate?
    ensures Proper(Exec(Init, run).wire[i].box)
  {
    InvInit();
    UprightRun(Init, run);
    SentInOrder(run);
  }

  /** And that is what it takes: when a switch happens while a box is pending, the box that the
      next refresh publishes is the right way round exactly if the aligned pending box is, and
      its left edge is not to the right of the new surface. */
  lemma SwitchKeepsBoxProperIff(s: Sys, surface: Surface, fd: nat)
    requires Inv(s) && s.local.Invalid? && Enabled(s, BeginSwitch(surface, fd))
    requires s.core.dirty.DisplayUpdate?
    ensures var run := [BeginSwitch(surface, fd), EndSwitch] + [Take, Send] + [DoRefresh(true)];
            && ValidRun(s, run)
            && var out := Exec(s, run).core.out;
               var b := s.core.dirty.box;
               && out.DisplayUpdate?
               && (Proper(out.box) <==> AlignLo(b.x1) <= surface.width && AlignLo(b.x1) <= AlignHi(b.x2))
               && (Proper(b) ==> (Proper(out.box) <==> AlignLo(b.x1) <= surface.width))
  {
    var begin := BeginSwitch(surface, fd);
    var s1 := Next(s, begin);
    InvStep(s, begin);
    OneStep(s, begin);
    OneStep(s1, EndSwitch);
    ExecConcat(s, [begin], [EndSwitch]);
    var s2 := Next(s1, EndSwitch);
    InvStep(s1, EndSwitch);
    TakeSend(s2);
    ExecConcat(s, [begin] + [EndSwitch], [Take, Send]);
    assert [begin] + [EndSwitch] == [begin, EndSwitch];
    var s3 := Exec(s2, [Take, Send]);
    assert s3.core.dirty == s.core.dirty && s3.core.surface == surface;
    RefreshPublishes(s3);
    OneStep(s3, DoRefresh(true));
    ExecConcat(s, [begin, EndSwitch] + [Take, Send], [DoRefresh(true)]);
    PublishedProperIff(s.core.dirty.box, surface.width, surface.height);
    AlignFixed(s.core.dirty.box.y1);
    AlignFixed(s.core.dirty.box.y2);
  }

  lemma RefreshPublishes(s: Sys)
    requires Inv(s) && s.pc.Idle? && !s.core.outReady && s.core.dirty.DisplayUpdate? && s.core.shmFd >= 0
    ensures Enabled(s, DoRefresh(true))
    ensures Next(s, DoRefresh(true)).core.out ==
              DisplayUpdate(Close(s.core.dirty.box, s.core.surface.width, s.core.surface.height))
  {
    AnchoredInBounds(s.core);
    SelfExpandIsNoOp(Close(s.core.dirty.box, s.core.surface.width, s.core.surface.height));
  }
}
