/** The display thread, the guest and the I/O thread as one step system over the display
    structure. A run is any interleaving of their steps. */
module Protocol {
  import opened Bytes
  import opened Boxes
  import opened DisplayCore

  /** Where the display thread stands: `Switching` is between the memcpy of
      `mux_display_switch` and its critical section. */
  datatype Pc = Idle | Switching

  /** A call of `mux_display_update`: the rectangle, the surface size at that moment, and
      how many messages had been put into the slot before it. */
  datatype Damage = Damage(box: Box, w: nat, h: nat, at: nat)

  datatype Sys = Sys(
    core: Core,
    pc: Pc,
    local: Update,                  // the copy that the I/O thread holds between drain and send
    wire: seq<Update>,              // what the I/O thread has sent
    published: seq<Update>,         // history: every value put into the slot
    takenAt: nat,                   // history: which of them `local` is
    sentAt: seq<nat>,               // history: which of them `wire` holds
    damage: seq<Damage>,            // history: every reported rectangle
    unreported: set<(int, int)>)    // pixels written by the guest and not reported since

  datatype Step =
    | GuestWrite(data: seq<byte>, touched: set<(int, int)>)
    | ReportDamage(x: int, y: int, w: int, h: int)
    | BeginSwitch(surface: Surface, fd: nat)
    | EndSwitch
    | DoRefresh(locked: bool)
    | Take
    | Send

  const Init := Sys(InitCore, Idle, Invalid, [], [], 0, [], [], {})

  ghost predicate WritesOnly(s: Surface, data: seq<byte>, touched: set<(int, int)>)
    requires ValidSurface(s)
  {
    && |data| == |s.data|
    && forall x, y :: OnSurface(s, x, y) && (x, y) !in touched ==> PixelAt(data, s, x, y) == PixelAt(s.data, s, x, y)
  }

  /** Which thread may take which step, and the hypotheses on the caller: the top edge of a
      reported rectangle is on the surface, and a switch keeps that of a pending box on the new
      surface. */
  ghost predicate Enabled(s: Sys, step: Step) {
    ValidCore(s.core) &&
    match step
    case GuestWrite(data, touched) => WritesOnly(s.core.surface, data, touched)
    case ReportDamage(x, y, w, h) =>
      s.pc.Idle? && Landed(OfRect(x, y, w, h), s.core.surface.height)
    case BeginSwitch(surface, _) =>
      && s.pc.Idle? && ValidSurface(surface)
      && (s.core.dirty.DisplayUpdate? ==> Landed(s.core.dirty.box, surface.height))
    case EndSwitch => s.pc.Switching?
    case DoRefresh(_) => s.pc.Idle? && (s.core.dirty.DisplayUpdate? ==> s.core.shmFd >= 0)
    case Take => s.local.Invalid?
    case Send => !s.local.Invalid?
  }

  function AfterRefresh(s: Sys, c: Core): Sys {
    if s.core.dirty.DisplayUpdate? && c.dirty.Invalid?
    then s.(core := c, published := s.published + [c.out])
    else s.(core := c)
  }

  ghost function Next(s: Sys, step: Step): Sys
    requires Enabled(s, step)
  {
    match step
    case GuestWrite(data, touched) =>
      s.(core := s.core.(surface := s.core.surface.(data := data)), unreported := s.unreported + touched)
    case ReportDamage(x, y, w, h) =>
      var b := OfRect(x, y, w, h);
      s.(core := Report(s.core, x, y, w, h),
         damage := s.damage + [Damage(b, s.core.surface.width, s.core.surface.height, |s.published|)],
         unreported := set p | p in s.unreported && !Covers(b, p.0, p.1))
    case BeginSwitch(surface, fd) =>
      s.(core := SwitchCopy(s.core, surface, fd), pc := Switching, unreported := {})
    case EndSwitch =>
      var c := SwitchPublish(s.core);
      s.(core := c, pc := Idle, published := s.published + [c.out])
    case DoRefresh(locked) =>
      AnchoredInBounds(s.core);
      AfterRefresh(s, Refresh(s.core, locked))
    case Take =>
      if s.core.outReady
      then s.(core := Drain(s.core), local := s.core.out, takenAt := if |s.published| > 0 then |s.published| - 1 else 0)
      else s
    case Send =>
      s.(local := Invalid, wire := s.wire + [s.local], sentAt := s.sentAt + [s.takenAt])
  }

  ghost predicate ValidRun(s: Sys, run: seq<Step>)
    decreases |run|
  {
    |run| > 0 ==> Enabled(s, run[0]) && ValidRun(Next(s, run[0]), run[1..])
  }

  ghost function Exec(s: Sys, run: seq<Step>): Sys
    requires ValidRun(s, run)
    decreases |run|
  {
    if |run| == 0 then s else Exec(Next(s, run[0]), run[1..])
  }

  // ----- Invariants -----

  ghost predicate Tidy(s: Sys) {
    && ValidCore(s.core)
    && (s.pc.Switching? ==> s.core.shmFd >= 0)
    && !s.core.dirty.DisplaySwitch?
    && (s.core.out.DisplaySwitch? ==> s.core.shmFd >= 0)
  }

  /** Wherever the shared memory differs from the surface, the pixel is in the dirty box or
      its change has not been reported yet. */
  ghost predicate Mirror(s: Sys)
    requires ValidCore(s.core)
  {
    forall x, y :: OnSurface(s.core.surface, x, y) && !Synced(s.core, x, y) ==>
      (x, y) in s.unreported || (s.core.dirty.DisplayUpdate? && Covers(s.core.dirty.box, x, y))
  }

  /** Message `k` has been sent, is held by the I/O thread, or is in the slot. */
  predicate Live(s: Sys, k: nat) {
    || k in s.sentAt
    || (!s.local.Invalid? && k == s.takenAt)
    || (s.core.outReady && k == |s.published| - 1)
  }

  predicate Displaced(s: Sys, k: nat) {
    k + 1 < |s.published| && s.published[k + 1].DisplaySwitch?
  }

  /** The one-slot mailbox. */
  ghost predicate Mailbox(s: Sys) {
    && (s.core.outReady <==> !s.core.out.Invalid?)
    && (s.core.outReady ==> |s.published| > 0 && s.core.out == s.published[|s.published| - 1])
    && (!s.local.Invalid? ==> s.takenAt < |s.published| && s.local == s.published[s.takenAt])
    && (!s.local.Invalid? && s.core.outReady ==> s.takenAt < |s.published| - 1)
    && |s.wire| == |s.sentAt|
    && (forall i :: 0 <= i < |s.sentAt| ==> s.sentAt[i] < |s.published| && s.wire[i] == s.published[s.sentAt[i]])
    && (forall i, j :: 0 <= i < j < |s.sentAt| ==> s.sentAt[i] < s.sentAt[j])
    && (forall i :: 0 <= i < |s.sentAt| ==>
          && (!s.local.Invalid? ==> s.sentAt[i] < s.takenAt)
          && (s.core.outReady ==> s.sentAt[i] < |s.published| - 1))
    && (forall k :: 0 <= k < |s.published| ==> Live(s, k) || Displaced(s, k))
  }

  /** What goes into the slot is a box whose high corner is on a legal surface, or a switch to
      one. The box may be the wrong way round from left to right. */
  ghost predicate Publishable(u: Update) {
    match u
    case Invalid => false
    case DisplayUpdate(b) => Landed(b, MAX_HEIGHT) && b.x2 <= MAX_WIDTH && b.y2 <= MAX_HEIGHT
    case DisplaySwitch(fd, _, w, h) => 0 <= fd && 0 <= w <= MAX_WIDTH && 0 <= h <= MAX_HEIGHT
  }

  ghost predicate AllPublishable(s: Sys) {
    forall k :: 0 <= k < |s.published| ==> Publishable(s.published[k])
  }

  ghost predicate SwitchSince(s: Sys, at: nat) {
    s.pc.Switching? || exists k :: at <= k < |s.published| && s.published[k].DisplaySwitch?
  }

  ghost predicate UpdateSince(s: Sys, at: nat, x: int, y: int) {
    exists k :: at <= k < |s.published| && s.published[k].DisplayUpdate? && Covers(s.published[k].box, x, y)
  }

  predicate DirtyCovers(s: Sys, x: int, y: int) {
    s.core.dirty.DisplayUpdate? && Covers(s.core.dirty.box, x, y)
  }

  ghost predicate Accounted(s: Sys, d: Damage) {
    && d.at <= |s.published|
    && (SwitchSince(s, d.at)
        || (&& d.w == s.core.surface.width && d.h == s.core.surface.height
            && forall x, y :: Covers(d.box, x, y) && 0 <= x < d.w && 0 <= y < d.h ==>
                 DirtyCovers(s, x, y) || UpdateSince(s, d.at, x, y)))
  }

  ghost predicate AllAccounted(s: Sys) {
    forall i :: 0 <= i < |s.damage| ==> Accounted(s, s.damage[i])
  }

  /** The last switch among some messages, if any. */
  function LatestSwitch(p: seq<Update>): Update
    decreases |p|
  {
    if |p| == 0 then Invalid
    else if p[|p| - 1].DisplaySwitch? then p[|p| - 1]
    else LatestSwitch(p[..|p| - 1])
  }

  /** An update lies on the grid of the surface that the last switch before it announced. */
  ghost predicate OnAnnounced(p: seq<Update>, k: nat)
    requires k < |p|
  {
    p[k].DisplayUpdate? ==>
      var u := LatestSwitch(p[..k]);
      u.DisplaySwitch? && 0 <= u.w && 0 <= u.h && OnGrid(p[k].box, u.w, u.h)
  }

  /** Outside a switch, the last switch put into the slot describes the current surface. */
  ghost predicate Announced(s: Sys) {
    && (s.pc.Idle? && s.core.shmFd >= 0 ==> LatestSwitch(s.published) == SwitchPublish(s.core).out)
    && (forall k :: 0 <= k < |s.published| ==> OnAnnounced(s.published, k))
  }

  ghost predicate Inv(s: Sys) {
    Tidy(s) && Mirror(s) && Mailbox(s) && AllPublishable(s) && AllAccounted(s) && Announced(s)
  }

  // ----- Preservation -----

  lemma TidyStep(s: Sys, step: Step)
    requires Tidy(s) && Enabled(s, step)
    ensures Tidy(Next(s, step))
  {
    match step
    case ReportDamage(x, y, w, h) =>
      if s.core.dirty.DisplayUpdate? {
        JoinLanded(s.core.dirty.box, OfRect(x, y, w, h), s.core.surface.height);
      }
    case BeginSwitch(surface, _) => SurfaceFitsShm(surface);
    case DoRefresh(locked) => RefreshTidy(s.core, locked);
    case _ =>
  }

  lemma RefreshTidy(c: Core, locked: bool)
    requires ValidCore(c) && !c.dirty.DisplaySwitch? && (c.dirty.DisplayUpdate? ==> c.shmFd >= 0)
    ensures RefreshInBounds(c)
    ensures var after := Refresh(c, locked);
            && ValidCore(after) && after.surface == c.surface && after.shmFd == c.shmFd
            && !after.dirty.DisplaySwitch?
  {
    AnchoredInBounds(c);
    if c.dirty.DisplayUpdate? {
      var w, h := c.surface.width, c.surface.height;
      var b := Close(c.dirty.box, w, h);
      CloseLanded(c.dirty.box, w, h);
      SelfExpandIsNoOp(b);
      RowsFit(c.surface, b.y2);
      Scale(b.y1, b.y2, Scanline(c.surface));
    }
  }

  lemma MirrorStep(s: Sys, step: Step)
    requires Tidy(s) && Mirror(s) && Enabled(s, step) && Tidy(Next(s, step))
    ensures Mirror(Next(s, step))
  {
    match step
    case GuestWrite(data, touched) => GuestWriteMirror(s, data, touched);
    case ReportDamage(x, y, w, h) => ReportMirror(s, x, y, w, h);
    case BeginSwitch(surface, fd) => SwitchSyncs(s.core, surface, fd);
    case DoRefresh(locked) => RefreshMirror(s, locked);
    case _ => assert Next(s, step).core.surface == s.core.surface && Next(s, step).core.shm == s.core.shm;
      forall x, y | OnSurface(s.core.surface, x, y)
        ensures Synced(Next(s, step).core, x, y) <==> Synced(s.core, x, y)
      {
      }
  }

  lemma GuestWriteMirror(s: Sys, data: seq<byte>, touched: set<(int, int)>)
    requires Tidy(s) && Mirror(s) && WritesOnly(s.core.surface, data, touched)
    ensures Mirror(Next(s, GuestWrite(data, touched)))
  {
    var t := Next(s, GuestWrite(data, touched));
    forall x, y | OnSurface(t.core.surface, x, y) && !Synced(t.core, x, y)
      ensures (x, y) in t.unreported || DirtyCovers(t, x, y)
    {
      if (x, y) !in touched {
        assert OnSurface(s.core.surface, x, y);
        assert !Synced(s.core, x, y);
      }
    }
  }

  lemma ReportMirror(s: Sys, x: int, y: int, w: int, h: int)
    requires Tidy(s) && Mirror(s) && Enabled(s, ReportDamage(x, y, w, h)) && Tidy(Next(s, ReportDamage(x, y, w, h)))
    ensures Mirror(Next(s, ReportDamage(x, y, w, h)))
  {
    var t := Next(s, ReportDamage(x, y, w, h));
    forall px, py | OnSurface(t.core.surface, px, py) && !Synced(t.core, px, py)
      ensures (px, py) in t.unreported || DirtyCovers(t, px, py)
    {
      assert OnSurface(s.core.surface, px, py) && !Synced(s.core, px, py);
    }
  }

  /** A switch makes the shared memory equal to the new surface. */
  lemma SwitchSyncs(c: Core, surface: Surface, fd: nat)
    requires ValidCore(c) && ValidSurface(surface) && ValidCore(SwitchCopy(c, surface, fd))
    ensures forall x, y :: OnSurface(surface, x, y) ==> Synced(SwitchCopy(c, surface, fd), x, y)
  {
    var after := SwitchCopy(c, surface, fd);
    forall x, y | OnSurface(surface, x, y)
      ensures Synced(after, x, y)
    {
      PixelInRow(surface.width, surface.height, x, y);
      assert after.shm[..|surface.data|] == surface.data;
    }
  }

  /** A refresh that gets the lock brings every pixel of the dirty rows up to date. */
  lemma RefreshSyncs(c: Core, x: int, y: int)
    requires ValidCore(c) && c.dirty.DisplayUpdate? && c.shmFd >= 0 && OnSurface(c.surface, x, y)
    requires RefreshInBounds(c) && ValidCore(Refresh(c, true))
    ensures Synced(c, x, y) || Covers(c.dirty.box, x, y) ==> Synced(Refresh(c, true), x, y)
    ensures Refresh(c, true).surface == c.surface
  {
    var b := Close(c.dirty.box, c.surface.width, c.surface.height);
    RowsFit(c.surface, b.y2);
    CopyRowsPixel(c.shm, c.surface, b.y1, b.y2, x, y);
    if Covers(c.dirty.box, x, y) {
      CloseKeepsPixels(c.dirty.box, c.surface.width, c.surface.height, x, y);
    }
  }

  lemma RefreshMirror(s: Sys, locked: bool)
    requires Tidy(s) && Mirror(s) && Enabled(s, DoRefresh(locked)) && Tidy(Next(s, DoRefresh(locked)))
    ensures Mirror(Next(s, DoRefresh(locked)))
    ensures locked ==> forall x, y :: OnSurface(s.core.surface, x, y) && (x, y) !in s.unreported ==>
                         Synced(Next(s, DoRefresh(locked)).core, x, y)
  {
    var t := Next(s, DoRefresh(locked));
    RefreshTidy(s.core, locked);
    forall x, y | OnSurface(s.core.surface, x, y) && (x, y) !in s.unreported
      ensures Synced(t.core, x, y) || (!locked && DirtyCovers(t, x, y))
    {
      if s.core.dirty.DisplayUpdate? {
        if locked {
          RefreshSyncs(s.core, x, y);
        } else if DirtyCovers(s, x, y) {
          CloseKeepsPixels(s.core.dirty.box, s.core.surface.width, s.core.surface.height, x, y);
        } else {
          assert Synced(s.core, x, y);
        }
      }
    }
  }

  lemma MailboxStep(s: Sys, step: Step)
    requires Tidy(s) && Mailbox(s) && AllPublishable(s) && Enabled(s, step)
    ensures Mailbox(Next(s, step))
  {
    var t := Next(s, step);
    match step
    case EndSwitch => PublishMailbox(s, t);
    case DoRefresh(locked) =>
      RefreshTidy(s.core, locked);
      if t.published != s.published {
        PublishMailbox(s, t);
      } else {
        SameMailbox(s, t);
      }
    case Take => TakeMailbox(s);
    case Send => SendMailbox(s);
    case _ => SameMailbox(s, t);
  }

  lemma SameMailbox(s: Sys, t: Sys)
    requires Mailbox(s)
    requires t.core.out == s.core.out && t.core.outReady == s.core.outReady && t.local == s.local && t.wire == s.wire
    requires t.published == s.published && t.takenAt == s.takenAt && t.sentAt == s.sentAt
    ensures Mailbox(t)
  {
    forall k | 0 <= k < |t.published|
      ensures Live(t, k) || Displaced(t, k)
    {
      assert Live(s, k) || Displaced(s, k);
    }
  }

  /** Putting a message into the slot: it was free, or the message is a switch. */
  lemma PublishMailbox(s: Sys, t: Sys)
    requires Mailbox(s)
    requires t.core.outReady && !t.core.out.Invalid? && t.published == s.published + [t.core.out]
    requires t.local == s.local && t.wire == s.wire && t.takenAt == s.takenAt && t.sentAt == s.sentAt
    requires t.core.out.DisplaySwitch? || !s.core.outReady
    ensures Mailbox(t)
  {
    forall k | 0 <= k < |t.published|
      ensures Live(t, k) || Displaced(t, k)
    {
      if k < |s.published| {
        assert Live(s, k) || Displaced(s, k);
      }
    }
  }

  lemma TakeMailbox(s: Sys)
    requires Tidy(s) && Mailbox(s) && s.local.Invalid?
    ensures Mailbox(Next(s, Take))
  {
    var t := Next(s, Take);
    forall k | 0 <= k < |t.published|
      ensures Live(t, k) || Displaced(t, k)
    {
      assert Live(s, k) || Displaced(s, k);
    }
  }

  lemma SendMailbox(s: Sys)
    requires Tidy(s) && Mailbox(s) && !s.local.Invalid?
    ensures Mailbox(Next(s, Send))
  {
    var t := Next(s, Send);
    assert t.sentAt[|s.sentAt|] == s.takenAt;
    forall k | 0 <= k < |t.published|
      ensures Live(t, k) || Displaced(t, k)
    {
      assert Live(s, k) || Displaced(s, k);
      if k in s.sentAt {
        assert k in t.sentAt;
      }
    }
  }

  lemma PublishableStep(s: Sys, step: Step)
    requires Tidy(s) && AllPublishable(s) && Enabled(s, step)
    ensures AllPublishable(Next(s, step))
  {
    if step.DoRefresh? && s.core.dirty.DisplayUpdate? {
      AnchoredInBounds(s.core);
      var b := Close(s.core.dirty.box, s.core.surface.width, s.core.surface.height);
      CloseLanded(s.core.dirty.box, s.core.surface.width, s.core.surface.height);
      SelfExpandIsNoOp(b);
      assert Publishable(DisplayUpdate(b));
    }
  }

  lemma AccountedStep(s: Sys, step: Step)
    requires Tidy(s) && AllAccounted(s) && Enabled(s, step)
    ensures AllAccounted(Next(s, step))
  {
    var t := Next(s, step);
    forall i | 0 <= i < |t.damage|
      ensures Accounted(t, t.damage[i])
    {
      if i < |s.damage| {
        KeepAccounted(s, step, s.damage[i]);
      } else {
        NewDamage(s, step.x, step.y, step.w, step.h);
      }
    }
  }

  lemma NewDamage(s: Sys, x: int, y: int, w: int, h: int)
    requires Tidy(s) && Enabled(s, ReportDamage(x, y, w, h))
    ensures var t := Next(s, ReportDamage(x, y, w, h)); Accounted(t, t.damage[|s.damage|])
  {
  }

  lemma KeepAccounted(s: Sys, step: Step, d: Damage)
    requires Tidy(s) && Accounted(s, d) && Enabled(s, step)
    ensures Accounted(Next(s, step), d)
  {
    var t := Next(s, step);
    assert t.published[..|s.published|] == s.published;
    if SwitchSince(s, d.at) {
      KeepSwitch(s, t, d.at, step);
    } else if step.BeginSwitch? {
      assert t.pc.Switching?;
    } else {
      if step.DoRefresh? {
        RefreshTidy(s.core, step.locked);
      }
      forall x, y | Covers(d.box, x, y) && 0 <= x < d.w && 0 <= y < d.h
        ensures DirtyCovers(t, x, y) || UpdateSince(t, d.at, x, y)
      {
        KeepCovered(s, step, d.at, x, y);
      }
    }
  }

  lemma KeepSwitch(s: Sys, t: Sys, at: nat, step: Step)
    requires Tidy(s) && Enabled(s, step) && t == Next(s, step) && SwitchSince(s, at) && at <= |s.published|
    requires |s.published| <= |t.published| && t.published[..|s.published|] == s.published
    ensures SwitchSince(t, at)
  {
    if s.pc.Switching? {
      if step.EndSwitch? {
        assert t.published[|s.published|].DisplaySwitch?;
      }
    } else {
      var k :| at <= k < |s.published| && s.published[k].DisplaySwitch?;
      assert t.published[k] == s.published[k];
    }
  }

  lemma KeepCovered(s: Sys, step: Step, at: nat, x: int, y: int)
    requires Tidy(s) && Enabled(s, step) && !step.BeginSwitch? && OnSurface(s.core.surface, x, y)
    requires DirtyCovers(s, x, y) || UpdateSince(s, at, x, y)
    requires at <= |s.published| <= |Next(s, step).published|
    requires Next(s, step).published[..|s.published|] == s.published
    ensures DirtyCovers(Next(s, step), x, y) || UpdateSince(Next(s, step), at, x, y)
  {
    var t := Next(s, step);
    if UpdateSince(s, at, x, y) {
      var k :| at <= k < |s.published| && s.published[k].DisplayUpdate? && Covers(s.published[k].box, x, y);
      assert t.published[k] == s.published[k];
    } else if step.DoRefresh? {
      AnchoredInBounds(s.core);
      var b := Close(s.core.dirty.box, s.core.surface.width, s.core.surface.height);
      CloseKeepsPixels(s.core.dirty.box, s.core.surface.width, s.core.surface.height, x, y);
      SelfExpandIsNoOp(b);
      if t.published != s.published {
        assert t.published[|s.published|] == DisplayUpdate(b);
      }
    }
  }

  lemma AnnouncedStep(s: Sys, step: Step)
    requires Tidy(s) && Announced(s) && Enabled(s, step)
    ensures Announced(Next(s, step))
  {
    var t := Next(s, step);
    if t.published != s.published {
      var u := t.published[|s.published|];
      AppendAnnounced(s.published, u);
      if step.DoRefresh? {
        RefreshTidy(s.core, step.locked);
        var b := Close(s.core.dirty.box, s.core.surface.width, s.core.surface.height);
        SelfExpandIsNoOp(b);
        CloseIsLeastGridBox(s.core.dirty.box, s.core.surface.width, s.core.surface.height);
        assert u == DisplayUpdate(b);
      }
    } else if step.DoRefresh? {
      RefreshTidy(s.core, step.locked);
    }
  }

  lemma AppendAnnounced(p: seq<Update>, u: Update)
    requires forall k :: 0 <= k < |p| ==> OnAnnounced(p, k)
    ensures forall k :: 0 <= k < |p| ==> OnAnnounced(p + [u], k)
    ensures (p + [u])[..|p|] == p
    ensures LatestSwitch(p + [u]) == if u.DisplaySwitch? then u else LatestSwitch(p)
  {
    assert (p + [u])[..|p|] == p;
    forall k | 0 <= k < |p|
      ensures OnAnnounced(p + [u], k)
    {
      assert (p + [u])[..k] == p[..k] && OnAnnounced(p, k);
    }
  }

  lemma InvInit()
    ensures Inv(Init)
  {
  }

  lemma InvStep(s: Sys, step: Step)
    requires Inv(s) && Enabled(s, step)
    ensures Inv(Next(s, step))
  {
    TidyStep(s, step);
    MirrorStep(s, step);
    MailboxStep(s, step);
    PublishableStep(s, step);
    AccountedStep(s, step);
    AnnouncedStep(s, step);
  }

  /** Every reachable state satisfies the invariants. */
  lemma {:induction false} InvRun(s: Sys, run: seq<Step>)
    requires Inv(s) && ValidRun(s, run)
    ensures Inv(Exec(s, run))
    decreases |run|
  {
    if |run| > 0 {
      InvStep(s, run[0]);
      InvRun(Next(s, run[0]), run[1..]);
    }
  }
}
