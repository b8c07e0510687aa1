/** The history that the step system carries, told by the run alone: which pixels are changed and
    not reported, and what became of one particular report. */
module History {
  import opened Bytes
  import opened Boxes
  import opened DisplayCore
  import opened Protocol
  import opened ProtocolTheorems

  /** A run can be cut anywhere. */
  lemma {:induction false} RunSplit(s: Sys, a: seq<Step>, b: seq<Step>)
    requires ValidRun(s, a + b)
    ensures ValidRun(s, a) && ValidRun(Exec(s, a), b) && Exec(s, a + b) == Exec(Exec(s, a), b)
    decreases |a|
  {
    if |a| == 0 {
      assert a + b == b;
    } else {
      assert (a + b)[1..] == a[1..] + b && (a + b)[0] == a[0];
      RunSplit(Next(s, a[0]), a[1..], b);
    }
  }

  lemma RunSnoc(s: Sys, a: seq<Step>, step: Step)
    requires ValidRun(s, a + [step])
    ensures ValidRun(s, a) && Enabled(Exec(s, a), step) && Exec(s, a + [step]) == Next(Exec(s, a), step)
  {
    RunSplit(s, a, [step]);
    var t := Exec(s, a);
    assert ValidRun(t, [step]) && [step][1..] == [];
    var u := Next(t, step);
    assert Exec(u, []) == u;
  }

  /** A guest's write replaces the surface's pixels and nothing else of the structure. */
  lemma GuestWritesSurface(s: Sys, data: seq<byte>, touched: set<(int, int)>)
    requires Enabled(s, GuestWrite(data, touched))
    ensures var t := Next(s, GuestWrite(data, touched));
            && t.core.surface == Surface(s.core.surface.width, s.core.surface.height, s.core.surface.format, data)
            && t.core.shm == s.core.shm && t.core.shmFd == s.core.shmFd
            && t.core.dirty == s.core.dirty && t.core.out == s.core.out && t.core.outReady == s.core.outReady
  {
  }

  // ----- Unreported pixels -----

  /** The step copies the whole surface, or reports a rectangle with the pixel in it. */
  predicate Settles(step: Step, x: int, y: int) {
    || step.BeginSwitch?
    || (step.ReportDamage? && step.x <= x < step.x + step.w && step.y <= y < step.y + step.h)
  }

  ghost predicate WrittenAndUnsettled(run: seq<Step>, x: int, y: int) {
    exists i :: 0 <= i < |run| && WrittenLast(run, i, x, y)
  }

  ghost predicate WrittenLast(run: seq<Step>, i: nat, x: int, y: int)
    requires i < |run|
  {
    run[i].GuestWrite? && (x, y) in run[i].touched && forall j :: i < j < |run| ==> !Settles(run[j], x, y)
  }

  lemma UnsettledSnoc(a: seq<Step>, step: Step, x: int, y: int)
    ensures WrittenAndUnsettled(a + [step], x, y) <==>
              || (step.GuestWrite? && (x, y) in step.touched)
              || (WrittenAndUnsettled(a, x, y) && !Settles(step, x, y))
  {
    var run := a + [step];
    if step.GuestWrite? && (x, y) in step.touched {
      assert WrittenLast(run, |a|, x, y);
    }
    if WrittenAndUnsettled(a, x, y) && !Settles(step, x, y) {
      var i :| 0 <= i < |a| && WrittenLast(a, i, x, y);
      assert WrittenLast(run, i, x, y);
    }
    if WrittenAndUnsettled(run, x, y) {
      var i :| 0 <= i < |run| && WrittenLast(run, i, x, y);
      if i < |a| {
        assert run[|a|] == step;
        forall j | i < j < |a|
          ensures !Settles(a[j], x, y)
        {
          assert a[j] == run[j];
        }
        assert WrittenLast(a, i, x, y);
      }
    }
  }

  /** The unreported pixels of a reachable state are those that the guest has written since they
      were last reported or copied by a switch. */
  lemma {:induction false} UnreportedIff(run: seq<Step>, x: int, y: int)
    requires ValidRun(Init, run)
    ensures (x, y) in Exec(Init, run).unreported <==> WrittenAndUnsettled(run, x, y)
    decreases |run|
  {
    if |run| > 0 {
      var a, step := run[..|run| - 1], run[|run| - 1];
      assert run == a + [step];
      RunSnoc(Init, a, step);
      UnreportedIff(a, x, y);
      UnsettledSnoc(a, step, x, y);
    }
  }

  /** The mirror, told by the run: a pixel whose shared-memory copy is stale is in the dirty box,
      or the guest has written it since it was last reported or copied by a switch. */
  lemma StalePixels(run: seq<Step>, x: int, y: int)
    requires ValidRun(Init, run)
    ensures var s := Exec(Init, run);
            && ValidCore(s.core)
            && (OnSurface(s.core.surface, x, y) && !Synced(s.core, x, y) ==>
                  WrittenAndUnsettled(run, x, y) || DirtyCovers(s, x, y))
  {
    hide Synced, ValidCore;
    MirrorTheorem(run, x, y);
    UnreportedIff(run, x, y);
  }

  // ----- One report -----

  lemma {:induction false} DamageStays(s: Sys, run: seq<Step>)
    requires ValidRun(s, run)
    ensures s.damage <= Exec(s, run).damage
    decreases |run|
  {
    if |run| > 0 {
      var t := Next(s, run[0]);
      assert s.damage <= t.damage;
      DamageStays(t, run[1..]);
    }
  }

  /** A report is recorded with its rectangle, the size of the surface at that moment, and the
      number of messages put into the slot before it. */
  lemma ReportIsRecorded(before: seq<Step>, report: Step, after: seq<Step>) returns (i: nat)
    requires report.ReportDamage? && ValidRun(Init, before + [report] + after)
    ensures ValidRun(Init, before)
    ensures var s := Exec(Init, before);
            var damage := Exec(Init, before + [report] + after).damage;
            && i < |damage|
            && damage[i] == Damage(Box(report.x, report.y, report.x + report.w, report.y + report.h),
                                   s.core.surface.width, s.core.surface.height, |s.published|)
  {
    RunSplit(Init, before + [report], after);
    RunSnoc(Init, before, report);
    DamageStays(Exec(Init, before + [report]), after);
    i := |Exec(Init, before).damage|;
  }

  /** No lost damage, told by the run: take any report in any run and any on-surface pixel of its
      rectangle. At the end of the run the pixel is in the dirty box, or in an update that was put
      into the slot after the report and is there, on its way or sent, or a switch came after the
      report and is under way, in the slot, on its way or sent. */
  lemma ReportedPixelIsNotLost(before: seq<Step>, report: Step, after: seq<Step>, x: int, y: int)
    requires report.ReportDamage? && ValidRun(Init, before + [report] + after)
    requires report.x <= x < report.x + report.w && report.y <= y < report.y + report.h
    ensures ValidRun(Init, before)
    ensures OnSurface(Exec(Init, before).core.surface, x, y) ==>
              var s, at := Exec(Init, before + [report] + after), |Exec(Init, before).published|;
              DirtyCovers(s, x, y) || LiveUpdateSince(s, at, x, y) || LiveSwitchSince(s, at) || s.pc.Switching?
  {
    hide ValidRun, Exec, LiveUpdateSince, LiveSwitchSince;
    var i := ReportIsRecorded(before, report, after);
    if OnSurface(Exec(Init, before).core.surface, x, y) {
      NoLostDamage(before + [report] + after, i, x, y);
    }
  }
}
