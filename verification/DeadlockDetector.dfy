/**
 The shutdown protocol of the deadlock detector (`deadlock_detection.rs`).

 A process holds any number of detector threads, each with the guard that owns it,
 other callers of `check_deadlock`, and threads that keep forming lock cycles.  A run
 is any interleaving of their steps, under sequential consistency.  `check_deadlock`
 is process-global and consuming: it returns every cycle not returned before.
 */
module DeadlockDetector {
  type Cycle = nat
  type Id = nat

  /** Ten milliseconds; durations are in nanoseconds. */
  const POLL_CAP: nat := 10_000_000

  /** Where a detector thread is in its loop. */
  datatype Pc =
    | WhileTest(waited: nat)   // about to test `waited < interval`
    | Poll(waited: nat)        // about to load the flag inside the waiting loop
    | Sleep(waited: nat)       // about to sleep one step
    | Recheck                  // about to load the flag before checking
    | Check                    // about to call check_deadlock
    | Report(found: set<Cycle>)
    | Exited
    | Panicked

  /** The guard: running, flag stored by `drop`, or `drop` returned. */
  datatype GuardPc = Alive | Stored | Dropped

  /**
   One detector with its guard.  `checksAfterStore` and `checksAfterDrop` count its
   `check_deadlock` calls since; `atCheckWhenStored` remembers where the thread was
   when the flag was stored.
   */
  datatype Detector = Detector(
    interval: nat, panicOnDeadlock: bool,
    shutdown: bool, handle: bool, guard: GuardPc, pc: Pc,
    atCheckWhenStored: bool, checksAfterStore: nat, checksAfterDrop: nat)

  datatype Reporter = ByDetector(id: Id) | ByCaller

  datatype ReportLog = ReportLog(reporter: Reporter, cycles: set<Cycle>)

  /** The process: its detectors, the cycles formed, those not yet returned, and the returned batches. */
  datatype Process = Process(
    detectors: seq<Detector>, formed: set<Cycle>, unreported: set<Cycle>, log: seq<ReportLog>)

  datatype Event =
    | Spawn(interval: nat, panicOnDeadlock: bool)
    | Store(id: Id)            // drop: shutdown.store(true)
    | Join(id: Id)             // drop: handle.take() and join, if there is a handle
    | Run(id: Id)              // one step of a detector thread
    | Form(cycle: Cycle)       // some threads close a new lock cycle
    | CallerCheck              // some other code calls check_deadlock

  const INITIAL := Process([], {}, {}, [])

  function PollStep(interval: nat): (step: nat)
    ensures step <= 10_000_000 && step <= interval
    ensures step == 10_000_000 || step == interval
    ensures interval > 0 ==> step > 0
  {
    if interval < POLL_CAP then interval else POLL_CAP
  }

  /** One sleep: no longer than a poll step, and exactly up to the interval in the end. */
  function SleepStep(interval: nat, waited: nat): (step: nat)
    requires waited <= interval
    ensures step <= PollStep(interval) && waited + step <= interval
    ensures step < PollStep(interval) ==> waited + step == interval
    ensures waited < interval ==> step > 0
  {
    if PollStep(interval) < interval - waited then PollStep(interval) else interval - waited
  }

  function NewDetector(interval: nat, panicOnDeadlock: bool): Detector {
    Detector(interval, panicOnDeadlock, false, true, Alive, WhileTest(0), false, 0, 0)
  }

  predicate Finished(pc: Pc) {
    pc.Exited? || pc.Panicked?
  }

  /** The next program point of a detector thread; `found` is what a check would return. */
  function NextPc(d: Detector, found: set<Cycle>): Pc {
    match d.pc
    case WhileTest(w) => if w < d.interval then Poll(w) else Recheck
    case Poll(w) => if d.shutdown then Exited else Sleep(w)
    case Sleep(w) => WhileTest(if w <= d.interval then w + SleepStep(d.interval, w) else w)
    case Recheck => if d.shutdown then Exited else Check
    case Check => if found == {} then WhileTest(0) else Report(found)
    case Report(_) => if d.panicOnDeadlock then Panicked else WhileTest(0)
    case Exited => Exited
    case Panicked => Panicked
  }

  function RunDetector(d: Detector, found: set<Cycle>): Detector {
    var d' := d.(pc := NextPc(d, found));
    if d.pc.Check? then
      d'.(checksAfterStore := d.checksAfterStore + (if d.guard.Alive? then 0 else 1),
          checksAfterDrop := d.checksAfterDrop + (if d.guard.Dropped? then 1 else 0))
    else d'
  }

  function StoreFlag(d: Detector): Detector {
    d.(shutdown := true, guard := Stored, atCheckWhenStored := d.pc.Check?)
  }

  function FinishDrop(d: Detector): Detector {
    d.(handle := false, guard := Dropped)
  }

  /** Whether the event can happen next. */
  predicate Enabled(p: Process, e: Event) {
    match e
    case Spawn(_, _) => true
    case Store(i) => i < |p.detectors| && p.detectors[i].guard.Alive?
    case Join(i) =>
      && i < |p.detectors| && p.detectors[i].guard.Stored?
      && (p.detectors[i].handle ==> Finished(p.detectors[i].pc))
    case Run(i) => i < |p.detectors| && !Finished(p.detectors[i].pc)
    case Form(c) => c !in p.formed
    case CallerCheck => true
  }

  /** `check_deadlock`: all unreported cycles are returned and removed. */
  function Consume(p: Process, reporter: Reporter): Process {
    p.(unreported := {}, log := p.log + [ReportLog(reporter, p.unreported)])
  }

  function Step(p: Process, e: Event): Process
    requires Enabled(p, e)
  {
    match e
    case Spawn(interval, panics) => p.(detectors := p.detectors + [NewDetector(interval, panics)])
    case Store(i) => p.(detectors := p.detectors[i := StoreFlag(p.detectors[i])])
    case Join(i) => p.(detectors := p.detectors[i := FinishDrop(p.detectors[i])])
    case Run(i) =>
      var d := p.detectors[i];
      var p' := p.(detectors := p.detectors[i := RunDetector(d, p.unreported)]);
      if d.pc.Check? then Consume(p', ByDetector(i)) else p'
    case Form(c) => p.(formed := p.formed + {c}, unreported := p.unreported + {c})
    case CallerCheck => Consume(p, ByCaller)
  }

  ghost predicate Possible(p: Process, run: seq<Event>) {
    run == [] ||
    (Possible(p, run[..|run| - 1]) && Enabled(After(p, run[..|run| - 1]), run[|run| - 1]))
  }

  /** The process after a possible run. */
  ghost function After(p: Process, run: seq<Event>): Process {
    if run == [] then p
    else
      var q := After(p, run[..|run| - 1]);
      if Enabled(q, run[|run| - 1]) then Step(q, run[|run| - 1]) else q
  }

  // ----- The same steps on shared mutable state -----

  /** parking_lot's process-global, consuming source of deadlock reports. */
  class ReportSource {
    var unreported: set<Cycle>

    constructor ()
      ensures unreported == {}
    {
      unreported := {};
    }

    method CheckDeadlock() returns (cycles: set<Cycle>)
      modifies this
      ensures cycles == old(unreported) && unreported == {}
    {
      cycles := unreported;
      unreported := {};
    }
  }

  /** A detector thread and its guard, sharing the shutdown flag. */
  class DetectorGuard {
    const interval: nat
    const panicOnDeadlock: bool
    var shutdown: bool
    var handle: bool
    var guard: GuardPc
    var pc: Pc
    ghost var atCheckWhenStored: bool
    ghost var checksAfterStore: nat
    ghost var checksAfterDrop: nat

    ghost function View(): Detector
      reads this
    {
      Detector(interval, panicOnDeadlock, shutdown, handle, guard, pc,
               atCheckWhenStored, checksAfterStore, checksAfterDrop)
    }

    /** `init_deadlock_detector_with_config`: the thread starts at the top of its loop. */
    constructor (interval: nat, panicOnDeadlock: bool)
      ensures View() == NewDetector(interval, panicOnDeadlock)
    {
      this.interval, this.panicOnDeadlock := interval, panicOnDeadlock;
      shutdown, handle, guard, pc := false, true, Alive, WhileTest(0);
      atCheckWhenStored, checksAfterStore, checksAfterDrop := false, 0, 0;
    }

    /** First half of `drop`. */
    method StoreShutdown()
      requires guard.Alive?
      modifies this
      ensures View() == StoreFlag(old(View()))
    {
      atCheckWhenStored := pc.Check?;
      shutdown := true;
      guard := Stored;
    }

    /** Second half of `drop`: take the handle and join, which waits for the thread to end. */
    method JoinThread()
      requires guard.Stored? && (handle ==> Finished(pc))
      modifies this
      ensures View() == FinishDrop(old(View()))
    {
      handle := false;
      guard := Dropped;
    }

    /** One step of the thread's loop. */
    method Advance(source: ReportSource)
      requires !Finished(pc)
      modifies this, source
      ensures View() == RunDetector(old(View()), old(source.unreported))
      ensures source.unreported == if old(pc.Check?) then {} else old(source.unreported)
    {
      match pc {
        case WhileTest(w) => pc := if w < interval then Poll(w) else Recheck;
        case Poll(w) => pc := if shutdown then Exited else Sleep(w);
        case Sleep(w) => pc := WhileTest(if w <= interval then w + SleepStep(interval, w) else w);
        case Recheck => pc := if shutdown then Exited else Check;
        case Check =>
          if !guard.Alive? { checksAfterStore := checksAfterStore + 1; }
          if guard.Dropped? { checksAfterDrop := checksAfterDrop + 1; }
          var cycles := source.CheckDeadlock();
          pc := if cycles == {} then WhileTest(0) else Report(cycles);
        case Report(_) => pc := if panicOnDeadlock then Panicked else WhileTest(0);
      }
    }
  }

  /**
   The waiting loop run to its end, the flag reading `readings[k]` at the `k`th poll.
   Unless it sees the flag it sleeps exactly `interval`, polling once per started step.
   */
  method WaitInterval(interval: nat, readings: seq<bool>) returns (exit: bool, waited: nat, polls: nat)
    requires |readings| > interval
    ensures polls <= interval
    ensures exit <==> polls > 0 && readings[polls - 1]
    ensures forall k :: 0 <= k < polls - 1 ==> !readings[k]
    ensures !exit ==> waited == interval
    ensures !exit && interval > 0 ==> (polls - 1) * PollStep(interval) < interval <= polls * PollStep(interval)
  {
    var step := PollStep(interval);
    ghost var full := 0;
    exit, waited, polls := false, 0, 0;
    while waited < interval
      invariant full == polls * step
      invariant waited == if full < interval then full else interval
      invariant polls > 0 ==> full - step < interval
      invariant polls <= waited
      invariant forall k :: 0 <= k < polls ==> !readings[k]
    {
      polls := polls + 1;
      if readings[polls - 1] {
        return true, waited, polls;
      }
      waited := waited + SleepStep(interval, waited);
      full := full + step;
    }
    assert polls > 0 ==> (polls - 1) * step == full - step;
  }

  // ----- Safety of one detector -----

  /** No check is left once the flag is stored, except the one already past the re-check. */
  ghost predicate DetectorInvariant(d: Detector) {
    && (d.shutdown <==> !d.guard.Alive?)
    && (d.handle <==> !d.guard.Dropped?)
    && (d.guard.Dropped? ==> Finished(d.pc))
    && d.checksAfterDrop == 0
    && (d.guard.Alive? ==> d.checksAfterStore == 0 && !d.atCheckWhenStored)
    && (!d.guard.Alive? ==>
          d.checksAfterStore + (if d.pc.Check? then 1 else 0) == if d.atCheckWhenStored then 1 else 0)
    && (d.pc.WhileTest? || d.pc.Poll? || d.pc.Sleep? ==> d.pc.waited <= d.interval)
    && (d.pc.Poll? || d.pc.Sleep? ==> d.pc.waited < d.interval)
    && (d.pc.Exited? ==> !d.guard.Alive?)
    && (d.pc.Panicked? ==> d.panicOnDeadlock)
    && (d.pc.Report? ==> d.pc.found != {})
  }

  lemma StepKeepsDetector(p: Process, e: Event, i: Id)
    requires forall j :: 0 <= j < |p.detectors| ==> DetectorInvariant(p.detectors[j])
    requires Enabled(p, e) && i < |Step(p, e).detectors|
    ensures DetectorInvariant(Step(p, e).detectors[i])
  {
    if i < |p.detectors| { assert DetectorInvariant(p.detectors[i]); }
  }

  lemma {:induction false} DetectorsSafe(run: seq<Event>, i: Id)
    requires Possible(INITIAL, run) && i < |After(INITIAL, run).detectors|
    ensures DetectorInvariant(After(INITIAL, run).detectors[i])
  {
    if run == [] {
    } else {
      var front := run[..|run| - 1];
      var p := After(INITIAL, front);
      forall j | 0 <= j < |p.detectors| ensures DetectorInvariant(p.detectors[j]) { DetectorsSafe(front, j); }
      StepKeepsDetector(p, run[|run| - 1], i);
    }
  }

  /**
   The guarantee of `drop`.  In every run, a detector makes at most one check after
   its flag was stored and none after `drop` returned; then its thread has ended.
   */
  lemma DropIsFinal(run: seq<Event>, i: Id)
    requires Possible(INITIAL, run) && i < |After(INITIAL, run).detectors|
    ensures var d := After(INITIAL, run).detectors[i];
      && d.checksAfterStore <= 1
      && d.checksAfterDrop == 0
      && (d.guard.Dropped? ==> Finished(d.pc) && !Enabled(After(INITIAL, run), Run(i)))
  {
    DetectorsSafe(run, i);
  }

  /**
   The re-check alone does not give "no check after the signal".  A check follows the
   store exactly when the thread had already passed its re-check at that moment; by
   the time `drop` returns the count is settled either way.
   */
  lemma CheckAfterStoreExactly(run: seq<Event>, i: Id)
    requires Possible(INITIAL, run) && i < |After(INITIAL, run).detectors|
    requires After(INITIAL, run).detectors[i].guard.Dropped?
    ensures var d := After(INITIAL, run).detectors[i];
      d.checksAfterStore == 1 <==> d.atCheckWhenStored
  {
    DetectorsSafe(run, i);
  }

  // ----- Progress -----

  /** Own steps that a detector whose flag is stored still needs at most. */
  function StepsLeft(pc: Pc): nat {
    match pc
    case WhileTest(_) => 2
    case Poll(_) => 1
    case Sleep(_) => 3
    case Recheck => 1
    case Check => 4
    case Report(_) => 3
    case Exited => 0
    case Panicked => 0
  }

  function OwnSteps(run: seq<Event>, i: Id): nat {
    if run == [] then 0
    else OwnSteps(run[..|run| - 1], i) + (if run[|run| - 1] == Run(i) then 1 else 0)
  }

  /** After the store, whatever the others do, the thread ends within four of its own steps. */
  lemma {:induction false} ExitsSoon(p: Process, run: seq<Event>, i: Id)
    requires i < |p.detectors| && p.detectors[i].shutdown && Possible(p, run)
    ensures |After(p, run).detectors| >= |p.detectors| && After(p, run).detectors[i].shutdown
    ensures StepsLeft(After(p, run).detectors[i].pc) + OwnSteps(run, i) <= StepsLeft(p.detectors[i].pc) <= 4
  {
    if run == [] {
    } else {
      ExitsSoon(p, run[..|run| - 1], i);
    }
  }

  lemma {:induction false} Continue(p: Process, run: seq<Event>, rest: seq<Event>)
    requires Possible(p, run) && Possible(After(p, run), rest)
    ensures Possible(p, run + rest) && After(p, run + rest) == After(After(p, run), rest)
  {
    if rest == [] {
      assert run + rest == run;
    } else {
      var front, last := rest[..|rest| - 1], rest[|rest| - 1];
      Continue(p, run, front);
      assert run + rest == (run + front) + [last];
      Extend(p, run + front, last);
    }
  }

  /**
   `drop` waits for the thread and for nothing else.  While it waits, in whatever way
   the run goes on, the thread takes at most four more steps; the join goes through
   exactly when the thread has no step left.
   */
  lemma JoinDoesNotBlock(run: seq<Event>, rest: seq<Event>, i: Id)
    requires Possible(INITIAL, run) && i < |After(INITIAL, run).detectors|
    requires After(INITIAL, run).detectors[i].guard.Stored?
    requires Possible(After(INITIAL, run), rest)
    ensures OwnSteps(rest, i) <= StepsLeft(After(INITIAL, run).detectors[i].pc) <= 4
    ensures var p := After(After(INITIAL, run), rest);
      && i < |p.detectors|
      && (p.detectors[i].guard.Stored? ==> (Enabled(p, Join(i)) <==> !Enabled(p, Run(i))))
      && (OwnSteps(rest, i) == StepsLeft(After(INITIAL, run).detectors[i].pc) ==> !Enabled(p, Run(i)))
  {
    DetectorsSafe(run, i);
    ExitsSoon(After(INITIAL, run), rest, i);
    Continue(INITIAL, run, rest);
    DetectorsSafe(run + rest, i);
  }

  /** From every such state the thread's own steps lead to the join. */
  lemma {:induction false} JoinIsReached(run: seq<Event>, i: Id) returns (steps: seq<Event>)
    requires Possible(INITIAL, run) && i < |After(INITIAL, run).detectors|
    requires After(INITIAL, run).detectors[i].guard.Stored?
    ensures |steps| <= 4 && (forall k :: 0 <= k < |steps| ==> steps[k] == Run(i))
    ensures Possible(INITIAL, run + steps) && Enabled(After(INITIAL, run + steps), Join(i))
  {
    DetectorsSafe(run, i);
    steps := RunToEnd(INITIAL, run, i);
  }

  lemma OwnStep(p: Process, i: Id)
    requires i < |p.detectors| && p.detectors[i].shutdown && Enabled(p, Run(i))
    ensures var d := Step(p, Run(i)).detectors;
      && |d| == |p.detectors| && d[i].shutdown && d[i].guard == p.detectors[i].guard
      && StepsLeft(d[i].pc) < StepsLeft(p.detectors[i].pc)
  {
  }

  lemma {:induction false} RunToEnd(p: Process, run: seq<Event>, i: Id) returns (steps: seq<Event>)
    requires Possible(p, run) && i < |After(p, run).detectors|
    requires After(p, run).detectors[i].guard.Stored? && After(p, run).detectors[i].shutdown
    ensures |steps| <= StepsLeft(After(p, run).detectors[i].pc)
    ensures forall k :: 0 <= k < |steps| ==> steps[k] == Run(i)
    ensures Possible(p, run + steps) && Enabled(After(p, run + steps), Join(i))
    decreases StepsLeft(After(p, run).detectors[i].pc)
  {
    hide After, Possible, Step, StepsLeft;
    if Finished(After(p, run).detectors[i].pc) {
      steps := [];
      assert run + steps == run;
    } else {
      Extend(p, run, Run(i));
      OwnStep(After(p, run), i);
      var more := RunToEnd(p, run + [Run(i)], i);
      steps := [Run(i)] + more;
      assert run + steps == run + [Run(i)] + more;
    }
  }

  // ----- Every cycle is reported once, and by whom -----

  function Reported(log: seq<ReportLog>): set<Cycle> {
    if log == [] then {} else Reported(log[..|log| - 1]) + log[|log| - 1].cycles
  }

  /** Conservation: a formed cycle is either still unreported or in exactly one batch. */
  ghost predicate Conserved(p: Process) {
    && p.formed == p.unreported + Reported(p.log)
    && p.unreported !! Reported(p.log)
    && (forall a, b :: 0 <= a < b < |p.log| ==> p.log[a].cycles !! p.log[b].cycles)
  }

  lemma {:induction false} BatchInReported(log: seq<ReportLog>, a: nat)
    requires a < |log|
    ensures log[a].cycles <= Reported(log)
  {
    if a == |log| - 1 {
    } else {
      BatchInReported(log[..|log| - 1], a);
    }
  }

  lemma ConsumeConserves(p: Process, reporter: Reporter)
    requires Conserved(p)
    ensures Conserved(Consume(p, reporter))
  {
    var p' := Consume(p, reporter);
    assert p'.log[..|p.log|] == p.log;
    assert Reported(p'.log) == Reported(p.log) + p.unreported;
    forall a, b | 0 <= a < b < |p'.log| ensures p'.log[a].cycles !! p'.log[b].cycles {
      if b == |p.log| { BatchInReported(p.log, a); }
    }
  }

  lemma StepConserves(p: Process, e: Event)
    requires Conserved(p) && Enabled(p, e)
    ensures Conserved(Step(p, e))
  {
    if e.CallerCheck? {
      ConsumeConserves(p, ByCaller);
    } else if e.Run? && p.detectors[e.id].pc.Check? {
      var p' := p.(detectors := p.detectors[e.id := RunDetector(p.detectors[e.id], p.unreported)]);
      assert Conserved(p');
      ConsumeConserves(p', ByDetector(e.id));
    }
  }

  /** In every run each cycle is returned at most once, and never lost. */
  lemma {:induction false} EachCycleReportedOnce(run: seq<Event>)
    requires Possible(INITIAL, run)
    ensures Conserved(After(INITIAL, run))
  {
    if run == [] {
    } else {
      EachCycleReportedOnce(run[..|run| - 1]);
      StepConserves(After(INITIAL, run[..|run| - 1]), run[|run| - 1]);
    }
  }

  /** The detector is there and its guard has been dropped. */
  predicate IsDropped(p: Process, i: Id) {
    i < |p.detectors| && p.detectors[i].guard.Dropped?
  }

  /** A dropped detector stays as it is, and nothing is logged in its name any more. */
  lemma StepAfterDrop(p: Process, e: Event, i: Id)
    requires IsDropped(p, i) && Finished(p.detectors[i].pc) && Enabled(p, e)
    ensures IsDropped(Step(p, e), i) && Step(p, e).detectors[i] == p.detectors[i]
    ensures p.log <= Step(p, e).log
    ensures forall k :: |p.log| <= k < |Step(p, e).log| ==> Step(p, e).log[k].reporter != ByDetector(i)
  {
  }

  /**
   Once `drop` has returned, whatever else goes on, other detectors and new ones
   included: the batches only grow in number and none of the new ones went to the
   dropped detector.
   */
  lemma {:induction false} NothingStolen(p: Process, rest: seq<Event>, i: Id)
    requires IsDropped(p, i) && Finished(p.detectors[i].pc) && Possible(p, rest)
    ensures IsDropped(After(p, rest), i) && After(p, rest).detectors[i] == p.detectors[i]
    ensures p.log <= After(p, rest).log
    ensures forall k :: |p.log| <= k < |After(p, rest).log| ==> After(p, rest).log[k].reporter != ByDetector(i)
  {
    if rest == [] {
    } else {
      var front, e := rest[..|rest| - 1], rest[|rest| - 1];
      NothingStolen(p, front, i);
      hide Step, Enabled;
      StepAfterDrop(After(p, front), e, i);
    }
  }

  lemma StepTakesAll(p: Process, e: Event, c: Cycle)
    requires c in p.unreported && Enabled(p, e)
    ensures if Step(p, e).log == p.log then c in Step(p, e).unreported
            else |Step(p, e).log| == |p.log| + 1 && p.log <= Step(p, e).log && c in Step(p, e).log[|p.log|].cycles
  {
  }

  /** An unreported cycle waits for the next check, whoever makes it, and is in that batch. */
  lemma {:induction false} NextCheckTakesIt(p: Process, rest: seq<Event>, c: Cycle)
    requires c in p.unreported && Possible(p, rest)
    ensures p.log <= After(p, rest).log
    ensures if After(p, rest).log == p.log then c in After(p, rest).unreported
            else c in After(p, rest).log[|p.log|].cycles
  {
    if rest == [] {
    } else {
      var front, e := rest[..|rest| - 1], rest[|rest| - 1];
      var q := After(p, front);
      NextCheckTakesIt(p, front, c);
      hide Step, Enabled;
      LogGrows(q, e);
      if q.log == p.log { StepTakesAll(q, e, c); }
    }
  }

  lemma LogGrows(p: Process, e: Event)
    requires Enabled(p, e)
    ensures p.log <= Step(p, e).log
  {
  }

  /**
   The guarantee behind the join.  A cycle formed after detector `i` was dropped, next
   to any other detectors and callers, is in the first batch handed out from then on;
   that batch did not go to detector `i`; no other batch holds it; and until then it
   waits for whoever asks.
   */
  lemma DroppedDetectorStealsNothing(run: seq<Event>, c: Cycle, rest: seq<Event>, i: Id)
    requires Possible(INITIAL, run) && IsDropped(After(INITIAL, run), i)
    requires Enabled(After(INITIAL, run), Form(c))
    requires Possible(Step(After(INITIAL, run), Form(c)), rest)
    ensures var log, p := After(INITIAL, run).log, After(Step(After(INITIAL, run), Form(c)), rest);
      && log <= p.log
      && (p.log == log ==>
            var asked := Step(p, CallerCheck);
            |asked.log| == |log| + 1 && asked.log[|log|].reporter == ByCaller && c in asked.log[|log|].cycles)
      && (p.log != log ==>
            && c in p.log[|log|].cycles
            && p.log[|log|].reporter != ByDetector(i)
            && forall k :: 0 <= k < |p.log| && c in p.log[k].cycles ==> k == |log|)
  {
    DetectorsSafe(run, i);
    Extend(INITIAL, run, Form(c));
    var formed := run + [Form(c)];
    var q := Step(After(INITIAL, run), Form(c));
    NothingStolen(q, rest, i);
    NextCheckTakesIt(q, rest, c);
    Continue(INITIAL, formed, rest);
    EachCycleReportedOnce(formed + rest);
  }

  lemma Extend(p: Process, run: seq<Event>, e: Event)
    requires Possible(p, run) && Enabled(After(p, run), e)
    ensures Possible(p, run + [e])
    ensures After(p, run + [e]) == Step(After(p, run), e)
  {
    assert (run + [e])[..|run|] == run;
  }

  /**
   Without the join, storing the flag would not be enough: a thread already past its
   re-check makes one more check after the signal and takes the cycle formed since.
   */
  lemma StoredIsNotEnough() returns (run: seq<Event>)
    ensures Possible(INITIAL, run) && run == [Spawn(0, false), Run(0), Run(0), Store(0), Form(5), Run(0)]
    ensures After(INITIAL, run).detectors[0].checksAfterStore == 1
    ensures After(INITIAL, run).unreported == {}
    ensures After(INITIAL, run).log == [ReportLog(ByDetector(0), {5})]
  {
    run := [];
    Extend(INITIAL, run, Spawn(0, false));
    run := run + [Spawn(0, false)];
    Extend(INITIAL, run, Run(0));
    run := run + [Run(0)];
    Extend(INITIAL, run, Run(0));
    run := run + [Run(0)];
    var d := After(INITIAL, run).detectors;
    assert |d| == 1 && d[0].pc.Check? && d[0].guard.Alive?;
    hide Possible, After;
    Extend(INITIAL, run, Store(0));
    run := run + [Store(0)];
    Extend(INITIAL, run, Form(5));
    run := run + [Form(5)];
    assert After(INITIAL, run).unreported == {5};
    Extend(INITIAL, run, Run(0));
    run := run + [Run(0)];
  }
}
