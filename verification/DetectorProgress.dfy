/**
 That detectors do check: how often, how soon, and what a find leads to
 (`deadlock_detection.rs`), in every interleaving.
 */
module DetectorProgress {
  import opened DeadlockDetector

  // ----- One check per interval slept -----

  /** How many batches went to detector `i`. */
  function Checks(log: seq<ReportLog>, i: Id): nat {
    if log == [] then 0
    else Checks(log[..|log| - 1], i) + (if log[|log| - 1].reporter == ByDetector(i) then 1 else 0)
  }

  lemma ChecksSnoc(log: seq<ReportLog>, entry: ReportLog, i: Id)
    ensures Checks(log + [entry], i) == Checks(log, i) + (if entry.reporter == ByDetector(i) then 1 else 0)
  {
    assert (log + [entry])[..|log|] == log;
  }

  /** How long detector `i` sleeps in the step, if it does. */
  function SleptIn(p: Process, e: Event, i: Id): nat {
    if e == Run(i) && i < |p.detectors| && p.detectors[i].pc.Sleep? &&
       p.detectors[i].pc.waited <= p.detectors[i].interval
    then SleepStep(p.detectors[i].interval, p.detectors[i].pc.waited) else 0
  }

  /** How long detector `i` has slept in the run, all its intervals together. */
  ghost function Slept(p: Process, run: seq<Event>, i: Id): nat {
    if run == [] then 0
    else
      var front := run[..|run| - 1];
      Slept(p, front, i) + SleptIn(After(p, front), run[|run| - 1], i)
  }

  /** What has been slept since the last check, where the program point tells. */
  function Pending(d: Detector): nat {
    match d.pc
    case WhileTest(w) => w
    case Poll(w) => w
    case Sleep(w) => w
    case Recheck => d.interval
    case Check => d.interval
    case _ => 0
  }

  /** Detector `i` has slept its interval once for every check, and `Pending` since. */
  ghost predicate Spaced(p: Process, i: Id, slept: nat)
    requires i < |p.detectors|
  {
    var d := p.detectors[i];
    var paid := d.interval * Checks(p.log, i);
    && Pending(d) <= d.interval
    && if Finished(d.pc) then paid <= slept <= paid + d.interval else slept == paid + Pending(d)
  }

  lemma StepSpaced(p: Process, e: Event, i: Id, slept: nat)
    requires i < |p.detectors| && DetectorInvariant(p.detectors[i]) && Enabled(p, e) && Spaced(p, i, slept)
    ensures i < |Step(p, e).detectors| && Spaced(Step(p, e), i, slept + SleptIn(p, e, i))
  {
    hide Checks, DetectorInvariant;
    if e == Run(i) {
      OwnStepSpaced(p, i, slept);
    } else if e == Store(i) || e == Join(i) {
    } else {
      OthersLeaveIt(p, e, i);
      hide Step;
    }
  }

  /** One step of the detector itself, with the time paid for by its checks as a number. */
  lemma OwnStepSpaced(p: Process, i: Id, slept: nat)
    requires i < |p.detectors| && DetectorInvariant(p.detectors[i]) && Enabled(p, Run(i)) && Spaced(p, i, slept)
    ensures Spaced(Step(p, Run(i)), i, slept + SleptIn(p, Run(i), i))
  {
    hide Checks, DetectorInvariant, SleepStep;
    var d, p' := p.detectors[i], Step(p, Run(i));
    StaysWithin(d);
    var paid := d.interval * Checks(p.log, i);
    if d.pc.Check? {
      ChecksSnoc(p.log, ReportLog(ByDetector(i), p.unreported), i);
      Next(d.interval, Checks(p.log, i));
    } else {
      assert p'.log == p.log;
      if d.pc.Sleep? { SleepsOn(d.interval, d.pc.waited); }
    }
  }

  lemma SleepsOn(interval: nat, waited: nat)
    requires waited < interval
    ensures 0 < SleepStep(interval, waited) && waited + SleepStep(interval, waited) <= interval
  {
  }

  lemma StaysWithin(d: Detector)
    requires DetectorInvariant(d)
    ensures d.pc.Sleep? ==> d.pc.waited < d.interval
    ensures d.pc.WhileTest? ==> d.pc.waited <= d.interval
  {
  }

  lemma Next(interval: nat, n: nat)
    ensures interval * (n + 1) == interval * n + interval
  {
  }

  /** Detectors that do not exist yet have neither checked nor slept. */
  lemma {:induction false} NothingBefore(run: seq<Event>, i: Id)
    requires Possible(INITIAL, run) && i >= |After(INITIAL, run).detectors|
    ensures Checks(After(INITIAL, run).log, i) == 0 && Slept(INITIAL, run, i) == 0
  {
    if run == [] {
    } else {
      var front, e := run[..|run| - 1], run[|run| - 1];
      var p := After(INITIAL, front);
      NothingBefore(front, i);
      if e.CallerCheck? {
        ChecksSnoc(p.log, ReportLog(ByCaller, p.unreported), i);
      } else if e.Run? && p.detectors[e.id].pc.Check? {
        ChecksSnoc(p.log, ReportLog(ByDetector(e.id), p.unreported), i);
      }
    }
  }

  /**
   In every run a detector's checks are spaced by its interval: it has slept the interval
   before every check, and never sleeps more than the interval without one.
   */
  lemma {:induction false} ChecksAreSpaced(run: seq<Event>, i: Id)
    requires Possible(INITIAL, run) && i < |After(INITIAL, run).detectors|
    ensures Spaced(After(INITIAL, run), i, Slept(INITIAL, run, i))
    ensures var d, n := After(INITIAL, run).detectors[i], Checks(After(INITIAL, run).log, i);
      d.interval * n <= Slept(INITIAL, run, i) <= d.interval * n + d.interval
  {
    hide Step, Spaced, DetectorInvariant, Checks, SleptIn;
    if run == [] {
    } else {
      var front, e := run[..|run| - 1], run[|run| - 1];
      var p := After(INITIAL, front);
      if i < |p.detectors| {
        ChecksAreSpaced(front, i);
        DetectorsSafe(front, i);
        StepSpaced(p, e, i, Slept(INITIAL, front, i));
      } else {
        NothingBefore(front, i);
        SpawnSpaced(p, e, i);
      }
      SpacedBounds(After(INITIAL, run), i, Slept(INITIAL, run, i));
    }
  }

  lemma SpawnSpaced(p: Process, e: Event, i: Id)
    requires Enabled(p, e) && |p.detectors| <= i < |Step(p, e).detectors| && Checks(p.log, i) == 0
    ensures Spaced(Step(p, e), i, 0) && SleptIn(p, e, i) == 0
  {
    hide Checks;
  }

  lemma SpacedBounds(p: Process, i: Id, slept: nat)
    requires i < |p.detectors| && Spaced(p, i, slept)
    ensures var d, n := p.detectors[i], Checks(p.log, i);
      d.interval * n <= slept <= d.interval * n + d.interval
  {
  }

  // ----- A check within a bounded number of steps -----

  /** Own steps that an unsignalled detector takes at most before its next check. */
  function StepsToCheck(d: Detector): nat {
    match d.pc
    case WhileTest(w) => if w <= d.interval then 3 * (d.interval - w) + 2 else 2
    case Poll(w) => if w <= d.interval then 3 * (d.interval - w) + 1 else 1
    case Sleep(w) => if w <= d.interval then 3 * (d.interval - w) else 0
    case Recheck => 1
    case Check => 0
    case Report(_) => 3 * d.interval + 3
    case Exited => 0
    case Panicked => 0
  }

  /** Nobody has signalled the detector, and it is not about to panic. */
  predicate KeepsGoing(d: Detector) {
    !d.shutdown && !Finished(d.pc) && (d.pc.Report? ==> !d.panicOnDeadlock)
  }

  /** Either this step is a check, or it brings the next one nearer. */
  lemma StepTowardsCheck(p: Process, i: Id)
    requires i < |p.detectors| && DetectorInvariant(p.detectors[i]) && KeepsGoing(p.detectors[i])
    ensures var d, p' := p.detectors[i], Step(p, Run(i));
      if d.pc.Check? then p'.log == p.log + [ReportLog(ByDetector(i), p.unreported)]
      else p'.log == p.log && KeepsGoing(p'.detectors[i]) && StepsToCheck(p'.detectors[i]) < StepsToCheck(d)
  {
  }

  /** The steps of others leave the detector where it is. */
  lemma OthersLeaveIt(p: Process, e: Event, i: Id)
    requires i < |p.detectors| && Enabled(p, e) && e != Run(i) && e != Store(i) && e != Join(i)
    ensures i < |Step(p, e).detectors| && Step(p, e).detectors[i] == p.detectors[i]
    ensures Checks(Step(p, e).log, i) == Checks(p.log, i)
  {
    if e.CallerCheck? {
      ChecksSnoc(p.log, ReportLog(ByCaller, p.unreported), i);
    } else if e.Run? && p.detectors[e.id].pc.Check? {
      ChecksSnoc(p.log, ReportLog(ByDetector(e.id), p.unreported), i);
    }
  }

  /**
   A detector that nobody signals checks again within a bounded number of its own steps,
   whatever else goes on: no run with that many of its steps is without a check of its.
   */
  lemma {:induction false} ChecksSoon(run: seq<Event>, rest: seq<Event>, i: Id)
    requires Possible(INITIAL, run) && i < |After(INITIAL, run).detectors|
    requires KeepsGoing(After(INITIAL, run).detectors[i])
    requires Possible(After(INITIAL, run), rest) && Store(i) !in rest
    ensures var p, q := After(INITIAL, run), After(After(INITIAL, run), rest);
      && i < |q.detectors| && Checks(q.log, i) >= Checks(p.log, i)
      && (Checks(q.log, i) > Checks(p.log, i) ||
          (KeepsGoing(q.detectors[i]) &&
           StepsToCheck(q.detectors[i]) + OwnSteps(rest, i) <= StepsToCheck(p.detectors[i])))
    ensures OwnSteps(rest, i) > StepsToCheck(After(INITIAL, run).detectors[i]) ==>
      Checks(After(After(INITIAL, run), rest).log, i) > Checks(After(INITIAL, run).log, i)
  {
    if rest == [] {
    } else {
      var front, e := rest[..|rest| - 1], rest[|rest| - 1];
      var p, q := After(INITIAL, run), After(After(INITIAL, run), front);
      assert e in rest && forall x :: x in front ==> x in rest;
      ChecksSoon(run, front, i);
      Continue(INITIAL, run, front);
      DetectorsSafe(run + front, i);
      hide Step, Checks, StepsToCheck, DetectorInvariant;
      StepCounts(q, e, i);
    }
  }

  lemma StepCounts(q: Process, e: Event, i: Id)
    requires i < |q.detectors| && DetectorInvariant(q.detectors[i]) && Enabled(q, e) && e != Store(i)
    ensures i < |Step(q, e).detectors| && Checks(Step(q, e).log, i) >= Checks(q.log, i)
    ensures KeepsGoing(q.detectors[i]) ==>
      || Checks(Step(q, e).log, i) > Checks(q.log, i)
      || (&& KeepsGoing(Step(q, e).detectors[i])
          && StepsToCheck(Step(q, e).detectors[i]) + (if e == Run(i) then 1 else 0) <= StepsToCheck(q.detectors[i]))
  {
    if e == Run(i) {
      if q.detectors[i].pc.Check? { ChecksSnoc(q.log, ReportLog(ByDetector(i), q.unreported), i); }
      if KeepsGoing(q.detectors[i]) { StepTowardsCheck(q, i); }
    } else if e == Join(i) {
    } else {
      hide StepsToCheck, DetectorInvariant;
      OthersLeaveIt(q, e, i);
      hide Step;
    }
  }

  // ----- What a find leads to -----

  ghost predicate HasFound(p: Process, i: Id) {
    exists k :: 0 <= k < |p.log| && p.log[k].reporter == ByDetector(i) && p.log[k].cycles != {}
  }

  /** A detector told to panic has found something exactly when it is about to panic or has done so. */
  ghost predicate PanicsRightly(p: Process, i: Id)
    requires i < |p.detectors|
  {
    var d := p.detectors[i];
    if d.panicOnDeadlock then HasFound(p, i) <==> d.pc.Report? || d.pc.Panicked? else !d.pc.Panicked?
  }

  lemma FoundSnoc(p: Process, p': Process, entry: ReportLog, i: Id)
    requires p'.log == p.log + [entry]
    ensures HasFound(p', i) <==> HasFound(p, i) || (entry.reporter == ByDetector(i) && entry.cycles != {})
  {
    if HasFound(p, i) {
      var k :| 0 <= k < |p.log| && p.log[k].reporter == ByDetector(i) && p.log[k].cycles != {};
      assert p'.log[k] == p.log[k];
    }
    if entry.reporter == ByDetector(i) && entry.cycles != {} { assert p'.log[|p.log|] == entry; }
  }

  lemma StepPanicsRightly(p: Process, e: Event, i: Id)
    requires i < |p.detectors| && Enabled(p, e) && PanicsRightly(p, i)
    ensures i < |Step(p, e).detectors| && PanicsRightly(Step(p, e), i)
  {
    hide HasFound;
    var p' := Step(p, e);
    if e.CallerCheck? {
      FoundSnoc(p, p', ReportLog(ByCaller, p.unreported), i);
    } else if e.Run? && p.detectors[e.id].pc.Check? {
      FoundSnoc(p, p', ReportLog(ByDetector(e.id), p.unreported), i);
    } else {
      assert HasFound(p', i) <==> HasFound(p, i) by { SameLogSameFound(p, p', i); }
    }
  }

  lemma SameLogSameFound(p: Process, p': Process, i: Id)
    requires p.log == p'.log
    ensures HasFound(p', i) <==> HasFound(p, i)
  {
  }

  /**
   In every run: a detector told to panic stops at its first nonempty batch and for no
   other reason but its guard; one not told to panic never does.
   */
  lemma {:induction false} PanicsExactlyOnFinds(run: seq<Event>, i: Id)
    requires Possible(INITIAL, run) && i < |After(INITIAL, run).detectors|
    ensures PanicsRightly(After(INITIAL, run), i)
    ensures var d := After(INITIAL, run).detectors[i];
      d.guard.Alive? && Finished(d.pc) ==> d.panicOnDeadlock && HasFound(After(INITIAL, run), i)
  {
    DetectorsSafe(run, i);
    if run == [] {
    } else {
      var front, e := run[..|run| - 1], run[|run| - 1];
      var p := After(INITIAL, front);
      if i < |p.detectors| {
        PanicsExactlyOnFinds(front, i);
        StepPanicsRightly(p, e, i);
      } else {
        NotFoundBefore(front, i);
      }
      hide Step, HasFound;
    }
  }

  lemma {:induction false} NotFoundBefore(run: seq<Event>, i: Id)
    requires Possible(INITIAL, run) && i >= |After(INITIAL, run).detectors|
    ensures !HasFound(After(INITIAL, run), i)
  {
    if run == [] {
    } else {
      var front, e := run[..|run| - 1], run[|run| - 1];
      NotFoundBefore(front, i);
      hide After, Possible;
    }
  }
}
