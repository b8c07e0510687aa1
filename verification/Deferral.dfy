/** While the surface is not switched, what a refresh finally publishes does not depend on the
    order of the reports, on how often and where earlier refreshes were put off, or on what the
    guest draws and the I/O thread does in between. */
module Deferral {
  import opened Boxes
  import opened DisplayCore
  import opened Protocol

  /** A stretch of a run without a switch, in which no refresh published. */
  ghost predicate Defers(s: Sys, run: seq<Step>) {
    && Tidy(s) && s.pc.Idle? && s.core.shmFd >= 0 && ValidRun(s, run)
    && (forall i :: 0 <= i < |run| ==> !run[i].BeginSwitch?)
    && |Exec(s, run).published| == |s.published|
  }

  /** The rectangles reported in a stretch, in order. */
  function Reported(run: seq<Step>): seq<Box>
    decreases |run|
  {
    if |run| == 0 then [] else ReportOf(run[0]) + Reported(run[1..])
  }

  function ReportOf(step: Step): seq<Box> {
    if step.ReportDamage? then [OfRect(step.x, step.y, step.w, step.h)] else []
  }

  /** The pending box closes to the closed least bounding box of everything reported. */
  ghost predicate Tracks(s: Sys, rs: seq<Box>, w: nat, h: nat) {
    && s.core.surface.width == w && s.core.surface.height == h
    && (forall r :: r in rs ==> Natural(r))
    && (|rs| == 0 ==> s.core.dirty.Invalid?)
    && (|rs| > 0 ==> s.core.dirty.DisplayUpdate? && Close(s.core.dirty.box, w, h) == Close(JoinAll(rs), w, h))
  }

  lemma TracksReport(s: Sys, rs: seq<Box>, step: Step, w: nat, h: nat)
    requires step.ReportDamage? && Tidy(s) && Enabled(s, step) && Tracks(s, rs, w, h)
    ensures Tracks(Next(s, step), rs + ReportOf(step), w, h)
  {
    var r := OfRect(step.x, step.y, step.w, step.h);
    if |rs| > 0 {
      assert (rs + [r])[..|rs|] == rs;
      JoinAllIsLeastBound(rs, r);
      CloseAbsorbsJoin(s.core.dirty.box, r, w, h);
      CloseAbsorbsJoin(JoinAll(rs), r, w, h);
    }
  }

  /** A refresh that does not publish only aligns the box. */
  lemma TracksRefresh(s: Sys, rs: seq<Box>, locked: bool, w: nat, h: nat)
    requires Tidy(s) && Enabled(s, DoRefresh(locked)) && Tracks(s, rs, w, h)
    requires |Next(s, DoRefresh(locked)).published| == |s.published|
    ensures Tracks(Next(s, DoRefresh(locked)), rs, w, h)
  {
    if s.core.dirty.DisplayUpdate? {
      AnchoredInBounds(s.core);
      CloseIdempotent(s.core.dirty.box, w, h);
      SelfExpandIsNoOp(Close(s.core.dirty.box, w, h));
    }
  }

  lemma TracksStep(s: Sys, rs: seq<Box>, step: Step, w: nat, h: nat)
    requires Tidy(s) && Enabled(s, step) && !step.BeginSwitch? && Tracks(s, rs, w, h)
    requires |Next(s, step).published| == |s.published|
    ensures Tracks(Next(s, step), rs + ReportOf(step), w, h)
  {
    assert !step.ReportDamage? ==> rs + ReportOf(step) == rs;
    match step
    case ReportDamage(_, _, _, _) => TracksReport(s, rs, step, w, h);
    case DoRefresh(locked) => TracksRefresh(s, rs, locked, w, h);
    case _ =>
  }

  lemma {:induction false} PublishedGrows(s: Sys, run: seq<Step>)
    requires ValidRun(s, run)
    ensures |s.published| <= |Exec(s, run).published|
    decreases |run|
  {
    if |run| > 0 {
      PublishedGrows(Next(s, run[0]), run[1..]);
    }
  }

  /** The first step of a deferring stretch leaves a deferring stretch. */
  lemma DefersTail(s: Sys, run: seq<Step>)
    requires Defers(s, run) && |run| > 0
    ensures !run[0].BeginSwitch? && |Next(s, run[0]).published| == |s.published|
    ensures Defers(Next(s, run[0]), run[1..])
  {
    var t := Next(s, run[0]);
    TidyStep(s, run[0]);
    PublishedGrows(t, run[1..]);
    assert t.pc.Idle? && t.core.shmFd == s.core.shmFd by {
      if run[0].DoRefresh? {
        RefreshTidy(s.core, run[0].locked);
      }
    }
    forall i | 0 <= i < |run[1..]|
      ensures !run[1..][i].BeginSwitch?
    {
      assert run[1..][i] == run[i + 1];
    }
  }

  lemma {:induction false} DeferTracks(s: Sys, run: seq<Step>, rs: seq<Box>, w: nat, h: nat)
    requires Defers(s, run) && Tracks(s, rs, w, h)
    ensures Tracks(Exec(s, run), rs + Reported(run), w, h)
    decreases |run|
  {
    hide Tracks, Defers, Tidy, Enabled, Next;
    if |run| == 0 {
      assert rs + Reported(run) == rs;
    } else {
      StepTracks(s, run, rs, w, h);
      var t := Next(s, run[0]);
      DeferTracks(t, run[1..], rs + ReportOf(run[0]), w, h);
      assert rs + ReportOf(run[0]) + Reported(run[1..]) == rs + Reported(run);
      assert Exec(s, run) == Exec(t, run[1..]);
    }
  }

  lemma StepTracks(s: Sys, run: seq<Step>, rs: seq<Box>, w: nat, h: nat)
    requires Defers(s, run) && |run| > 0 && Tracks(s, rs, w, h)
    ensures ValidRun(s, run) && Enabled(s, run[0]) && Defers(Next(s, run[0]), run[1..])
    ensures Tracks(Next(s, run[0]), rs + ReportOf(run[0]), w, h)
  {
    DefersTail(s, run);
    TracksStep(s, rs, run[0], w, h);
  }

  /** The next refresh can publish: it gets the lock and the slot is free. */
  ghost predicate CanPublish(s: Sys) {
    Tidy(s) && Enabled(s, DoRefresh(true)) && !s.core.outReady && s.core.out.Invalid?
  }

  /** The refresh that publishes after a deferring stretch publishes the aligned and clamped
      least bounding box of exactly the rectangles reported in it. */
  lemma PublishedBox(s: Sys, run: seq<Step>)
    requires Defers(s, run) && s.core.dirty.Invalid? && |Reported(run)| > 0 && CanPublish(Exec(s, run))
    ensures var after := Next(Exec(s, run), DoRefresh(true));
            && after.core.outReady && after.core.dirty.Invalid?
            && after.core.out == DisplayUpdate(Close(JoinAll(Reported(run)), s.core.surface.width, s.core.surface.height))
            && after.published == Exec(s, run).published + [after.core.out]
  {
    hide Exec, ValidRun;
    var w, h := s.core.surface.width, s.core.surface.height;
    DeferTracks(s, run, [], w, h);
    assert [] + Reported(run) == Reported(run);
    var t := Exec(s, run);
    AnchoredInBounds(t.core);
    SelfExpandIsNoOp(Close(t.core.dirty.box, w, h));
  }

  /** Two stretches, in the same or in different runs, on surfaces of the same size, that report
      the same rectangles publish the same box. */
  lemma DeferralIndependence(s1: Sys, run1: seq<Step>, s2: Sys, run2: seq<Step>)
    requires Defers(s1, run1) && s1.core.dirty.Invalid? && CanPublish(Exec(s1, run1))
    requires Defers(s2, run2) && s2.core.dirty.Invalid? && CanPublish(Exec(s2, run2))
    requires s1.core.surface.width == s2.core.surface.width && s1.core.surface.height == s2.core.surface.height
    requires |Reported(run1)| > 0 && |Reported(run2)| > 0
    requires forall r :: r in Reported(run1) <==> r in Reported(run2)
    ensures Next(Exec(s1, run1), DoRefresh(true)).core.out == Next(Exec(s2, run2), DoRefresh(true)).core.out
  {
    PublishedBox(s1, run1);
    PublishedBox(s2, run2);
    JoinAllOrderFree(Reported(run1), Reported(run2));
  }
}
