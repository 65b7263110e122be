/**
 `new_ulid` of `config.rs` in a process of many threads: the simulation clock and the
 seeded random source of one thread joined, next to any other threads.

 What a seeded generator yields is a parameter: the ten bytes after the queries it has
 answered.  The system clock, the system's randomness and the identifier that the
 standard generator would return are inputs of every call.
 */
module DeterministicIds {
  import opened Wrappers
  import opened Transactions
  import opened TransactionTheorems
  import Rng = GlobalRng

  /** The query that fills the ten random bytes of an identifier. */
  const ID_BYTES: Rng.Query := 10

  /** The bytes that a generator with the seed yields after the queries. */
  type ByteSource = (U64, seq<Rng.Query>) -> Randomness

  /** What the surroundings would contribute to one call. */
  datatype Ambient = Ambient(system: U64, entropy: Randomness, ulid: U128)

  /** The thread-local cells of one thread. */
  datatype Thread = Thread(locals: Rng.Locals, clock: Clock)

  const FRESH := Thread(Rng.FRESH, Clock(None, 0))

  datatype Call =
    | Random(action: Rng.Action)
    | SetTime(ms: U64)
    | ClearTime
    | ReadClock
    | NewId(request: Request)

  datatype Outcome =
    | Answered(output: Rng.Output)
    | Time(ms: U64)
    | Id(tx: Transaction)
    | Done

  /** One call on one thread: outcome, cells, index counter. */
  function Perform(bytes: ByteSource, th: Thread, counter: U64, call: Call, ambient: Ambient): (Outcome, Thread, U64) {
    match call
    case Random(a) =>
      var (o, l, c) := Rng.Act(th.locals, counter, a);
      (Answered(o), th.(locals := l), c)
    case SetTime(ms) => (Done, th.(clock := Clock(Some(ms), 0)), counter)
    case ClearTime => (Done, th.(clock := Clock(None, 0)), counter)
    case ReadClock => (Time(ReadTime(th.clock, ambient.system)), th, counter)
    case NewId(request) =>
      if th.locals.seed.None? && th.clock.base.None? then (Id(FromUlid(ambient.ulid, request)), th, counter)
      else
        var (o, l, c) := Rng.Act(th.locals, counter, Rng.WithRng(ID_BYTES));
        var random := if o.FromSeed? then bytes(o.seed, o.answered) else ambient.entropy;
        (Id(Made(ReadTime(th.clock, ambient.system), request, random)), Thread(l, Ticked(th.clock)), c)
  }

  /** The same on the mutable cells: the clock is read and advanced first, then the bytes are drawn. */
  method NewIdentifier(bytes: ByteSource, cells: Rng.ThreadCells, time: SimulationTime, counter: Rng.IndexCounter,
                       request: Request, ambient: Ambient) returns (out: Outcome)
    modifies cells, time, counter
    ensures (out, Thread(cells.View(), time.View()), counter.next)
         == Perform(bytes, Thread(old(cells.View()), old(time.View())), old(counter.next), NewId(request), ambient)
  {
    if cells.seed.None? && time.base.None? {
      return Id(FromUlid(ambient.ulid, request));
    }
    var ms := time.CurrentTimeMs(ambient.system);
    var o := cells.Answer(counter, ID_BYTES);
    var random := if o.FromSeed? then bytes(o.seed, o.answered) else ambient.entropy;
    out := Id(Made(ms, request, random));
  }

  // ----- All threads of the process -----

  datatype World = World(counter: U64, threads: map<Rng.ThreadId, Thread>)

  datatype Event = Event(thread: Rng.ThreadId, call: Call, ambient: Ambient)

  function Local(w: World, t: Rng.ThreadId): Thread {
    if t in w.threads then w.threads[t] else FRESH
  }

  function Step(bytes: ByteSource, w: World, e: Event): (Outcome, World) {
    var (o, th, c) := Perform(bytes, Local(w, e.thread), w.counter, e.call, e.ambient);
    (o, World(c, w.threads[e.thread := th]))
  }

  function After(bytes: ByteSource, w: World, run: seq<Event>): World {
    if run == [] then w else Step(bytes, After(bytes, w, run[..|run| - 1]), run[|run| - 1]).1
  }

  /** What the calls of thread `t` returned during the run. */
  function OutcomesOf(bytes: ByteSource, t: Rng.ThreadId, w: World, run: seq<Event>): seq<Outcome> {
    if run == [] then []
    else
      var front, e := run[..|run| - 1], run[|run| - 1];
      OutcomesOf(bytes, t, w, front) + (if e.thread == t then [Step(bytes, After(bytes, w, front), e).0] else [])
  }

  function CallsOf(t: Rng.ThreadId, run: seq<Event>): seq<Call> {
    if run == [] then []
    else
      var front, e := run[..|run| - 1], run[|run| - 1];
      CallsOf(t, front) + (if e.thread == t then [e.call] else [])
  }

  // ----- A seeded thread with a simulated clock, alone -----

  /** Seeded and with a simulated clock: nothing outside the thread is consulted. */
  predicate Deterministic(th: Thread) {
    th.locals.seed.Some? && th.locals.index.Some? && th.clock.base.Some?
  }

  predicate Clears(call: Call) {
    call.ClearTime? || (call.Random? && call.action.ClearSeed?)
  }

  ghost predicate NoClear(calls: seq<Call>) {
    forall i :: 0 <= i < |calls| ==> !Clears(calls[i])
  }

  const NOWHERE := Ambient(0, [0, 0, 0, 0, 0, 0, 0, 0, 0, 0], 0)

  function Alone(bytes: ByteSource, th: Thread, call: Call): (Outcome, Thread) {
    var (o, th', _) := Perform(bytes, th, 0, call, NOWHERE);
    (o, th')
  }

  function AloneAfter(bytes: ByteSource, th: Thread, calls: seq<Call>): Thread {
    if calls == [] then th
    else Alone(bytes, AloneAfter(bytes, th, calls[..|calls| - 1]), calls[|calls| - 1]).1
  }

  function AloneOutcomes(bytes: ByteSource, th: Thread, calls: seq<Call>): (outcomes: seq<Outcome>)
    ensures |outcomes| == |calls|
  {
    if calls == [] then []
    else
      var front, last := calls[..|calls| - 1], calls[|calls| - 1];
      AloneOutcomes(bytes, th, front) + [Alone(bytes, AloneAfter(bytes, th, front), last).0]
  }

  /** Neither the counter nor the surroundings have a say in what such a thread does. */
  lemma NothingElseMatters(bytes: ByteSource, th: Thread, counter: U64, call: Call, ambient: Ambient)
    requires Deterministic(th) && !Clears(call)
    ensures Perform(bytes, th, counter, call, ambient)
         == (Alone(bytes, th, call).0, Alone(bytes, th, call).1, counter)
    ensures Deterministic(Alone(bytes, th, call).1)
  {
    hide Made, Rng.DerivedSeed;
  }

  /** In any interleaving the thread does what it would do alone. */
  lemma {:induction false} OutcomesAlone(bytes: ByteSource, t: Rng.ThreadId, w: World, run: seq<Event>)
    requires Deterministic(Local(w, t)) && NoClear(CallsOf(t, run))
    ensures OutcomesOf(bytes, t, w, run) == AloneOutcomes(bytes, Local(w, t), CallsOf(t, run))
    ensures Local(After(bytes, w, run), t) == AloneAfter(bytes, Local(w, t), CallsOf(t, run))
    ensures Deterministic(Local(After(bytes, w, run), t))
  {
    hide Perform, Alone, Deterministic, Clears;
    if run == [] {
    } else {
      var front, e := run[..|run| - 1], run[|run| - 1];
      var mine := CallsOf(t, front);
      var now := After(bytes, w, front);
      if e.thread == t {
        assert CallsOf(t, run) == mine + [e.call];
        assert forall i :: 0 <= i < |mine| ==> mine[i] == CallsOf(t, run)[i];
        assert !Clears(CallsOf(t, run)[|mine|]);
        OutcomesAlone(bytes, t, w, front);
        assert (mine + [e.call])[..|mine|] == mine;
        NothingElseMatters(bytes, Local(now, t), now.counter, e.call, e.ambient);
      } else {
        assert CallsOf(t, run) == mine;
        OutcomesAlone(bytes, t, w, front);
        assert Local(After(bytes, w, run), t) == Local(now, t);
      }
    }
  }

  /** The world after thread `t` set seed and time. */
  function Prepared(bytes: ByteSource, w: World, t: Rng.ThreadId, seed: U64, base: U64, ambient: Ambient): World {
    var seeded := Step(bytes, w, Event(t, Random(Rng.SetSeed(seed)), ambient)).1;
    Step(bytes, seeded, Event(t, SetTime(base), ambient)).1
  }

  lemma PreparedThread(bytes: ByteSource, w: World, t: Rng.ThreadId, seed: U64, base: U64, ambient: Ambient)
    ensures Local(Prepared(bytes, w, t, seed, base, ambient), t)
         == Thread(Rng.Locals(Some(seed), None, Some(0)), Clock(Some(base), 0))
  {
  }

  /**
   Reproducibility.  Two processes that agree on one thread's seed, base time and calls
   agree on every identifier and every random answer of that thread, whatever happened
   before, whatever the other threads do and when, and whatever the system clocks say.
   */
  lemma SameSeedSameIdentifiers(bytes: ByteSource, w: World, w': World, t: Rng.ThreadId, seed: U64, base: U64,
                                ambient: Ambient, ambient': Ambient, run: seq<Event>, run': seq<Event>)
    requires CallsOf(t, run) == CallsOf(t, run') && NoClear(CallsOf(t, run))
    ensures OutcomesOf(bytes, t, Prepared(bytes, w, t, seed, base, ambient), run)
         == OutcomesOf(bytes, t, Prepared(bytes, w', t, seed, base, ambient'), run')
  {
    hide Prepared, OutcomesOf, AloneOutcomes, After, AloneAfter;
    PreparedThread(bytes, w, t, seed, base, ambient);
    PreparedThread(bytes, w', t, seed, base, ambient');
    OutcomesAlone(bytes, t, Prepared(bytes, w, t, seed, base, ambient), run);
    OutcomesAlone(bytes, t, Prepared(bytes, w', t, seed, base, ambient'), run');
  }

  // ----- What identifiers are stamped with -----

  /**
   Every mode.  Outside deterministic mode the standard generator's identifier is used;
   otherwise the timestamp is the simulated clock's, whether the thread is seeded or not,
   or the system clock's on a thread that is only seeded.
   */
  lemma StampedWith(bytes: ByteSource, th: Thread, counter: U64, request: Request, ambient: Ambient)
    requires request.NewTx?
    ensures var (o, th', _) := Perform(bytes, th, counter, NewId(request), ambient);
      && o.Id? && TypeOf(o.tx) == Some(request.ty) && o.tx.parent == request.parent
      && Timestamp(o.tx.id) == (
           if th.clock.base.Some? then SaturatingAdd(th.clock.base.value, th.clock.counter) % TWO_48
           else if th.locals.seed.Some? then ambient.system % TWO_48
           else Timestamp(ambient.ulid))
      && th'.clock == Ticked(th.clock)
  {
    hide Made, FromUlid, Timestamp, TypeOf, Rng.DerivedSeed;
    BuiltFields(ambient.ulid, request);
    var (o, _, _) := Rng.Act(th.locals, counter, Rng.WithRng(ID_BYTES));
    var random := if o.FromSeed? then bytes(o.seed, o.answered) else ambient.entropy;
    MadeFields(ReadTime(th.clock, ambient.system), request, random);
  }

  function IdsIn(calls: seq<Call>): nat {
    if calls == [] then 0 else IdsIn(calls[..|calls| - 1]) + (if calls[|calls| - 1].NewId? then 1 else 0)
  }

  /** The calls leave the simulated clock to itself. */
  ghost predicate KeepsTime(calls: seq<Call>) {
    forall i :: 0 <= i < |calls| ==> !calls[i].SetTime? && !calls[i].ClearTime?
  }

  lemma CallsSnoc(t: Rng.ThreadId, run: seq<Event>)
    requires run != []
    ensures var front, e := run[..|run| - 1], run[|run| - 1];
      && CallsOf(t, run) == CallsOf(t, front) + (if e.thread == t then [e.call] else [])
      && (KeepsTime(CallsOf(t, run)) ==> KeepsTime(CallsOf(t, front)))
      && IdsIn(CallsOf(t, run)) == IdsIn(CallsOf(t, front)) + (if e.thread == t && e.call.NewId? then 1 else 0)
  {
    var front, e := run[..|run| - 1], run[|run| - 1];
    var mine := CallsOf(t, front);
    assert (mine + [e.call])[..|mine|] == mine && mine + [] == mine;
    assert forall i :: 0 <= i < |mine| ==> mine[i] == CallsOf(t, run)[i];
  }

  lemma ClockStep(bytes: ByteSource, w: World, e: Event, t: Rng.ThreadId)
    requires e.thread == t ==> !e.call.SetTime? && !e.call.ClearTime?
    requires Local(w, t).clock.base.Some?
    ensures Local(Step(bytes, w, e).1, t).clock ==
      if e.thread == t && e.call.NewId? then Ticked(Local(w, t).clock) else Local(w, t).clock
  {
    hide Made, Rng.Act;
  }

  /** The simulated clock counts the thread's identifiers, seeded or not, whatever comes between. */
  lemma {:induction false} ClockCounts(bytes: ByteSource, t: Rng.ThreadId, w: World, run: seq<Event>)
    requires Local(w, t).clock.base.Some? && KeepsTime(CallsOf(t, run))
    requires Local(w, t).clock.counter + IdsIn(CallsOf(t, run)) < TWO_64
    ensures Local(After(bytes, w, run), t).clock
         == Local(w, t).clock.(counter := Local(w, t).clock.counter + IdsIn(CallsOf(t, run)))
    ensures |OutcomesOf(bytes, t, w, run)| == |CallsOf(t, run)|
  {
    hide Step, Local;
    if run == [] {
    } else {
      var front, e := run[..|run| - 1], run[|run| - 1];
      CallsSnoc(t, run);
      ClockCounts(bytes, t, w, front);
      if e.thread == t { assert CallsOf(t, run)[|CallsOf(t, front)|] == e.call; }
      ClockStep(bytes, After(bytes, w, front), e, t);
    }
  }

  /** A transaction is stamped with the base plus the identifiers that the thread created before. */
  lemma {:induction false} IdentifierAt(bytes: ByteSource, t: Rng.ThreadId, w: World, run: seq<Event>, i: nat)
    requires Local(w, t).clock.base.Some? && KeepsTime(CallsOf(t, run))
    requires WithinRange(Local(w, t).clock, IdsIn(CallsOf(t, run)))
    requires i < |CallsOf(t, run)| && CallsOf(t, run)[i].NewId? && CallsOf(t, run)[i].request.NewTx?
    ensures |OutcomesOf(bytes, t, w, run)| == |CallsOf(t, run)|
    ensures var o, call := OutcomesOf(bytes, t, w, run)[i], CallsOf(t, run)[i];
      && o.Id? && TypeOf(o.tx) == Some(call.request.ty) && o.tx.parent == call.request.parent
      && Timestamp(o.tx.id) == Local(w, t).clock.base.value + Local(w, t).clock.counter + IdsIn(CallsOf(t, run)[..i])
  {
    hide Step, Local, Timestamp, TypeOf, IdsIn;
    var front, e := run[..|run| - 1], run[|run| - 1];
    var mine := CallsOf(t, front);
    CallsSnoc(t, run);
    ClockCounts(bytes, t, w, run);
    ClockCounts(bytes, t, w, front);
    if i < |mine| {
      assert CallsOf(t, run)[..i] == mine[..i];
      IdentifierAt(bytes, t, w, front, i);
    } else {
      assert CallsOf(t, run)[..i] == mine;
      var now := After(bytes, w, front);
      StampedNow(bytes, now, e);
    }
  }

  lemma StampedNow(bytes: ByteSource, w: World, e: Event)
    requires e.call.NewId? && e.call.request.NewTx? && WithinRange(Local(w, e.thread).clock, 1)
    ensures var o := Step(bytes, w, e).0;
      && o.Id? && TypeOf(o.tx) == Some(e.call.request.ty) && o.tx.parent == e.call.request.parent
      && Timestamp(o.tx.id) == Local(w, e.thread).clock.base.value + Local(w, e.thread).clock.counter
  {
    hide Perform, Timestamp, TypeOf, Local;
    StampedWith(bytes, Local(w, e.thread), w.counter, e.call.request, e.ambient);
  }

  lemma {:induction false} IdsInMonotone(calls: seq<Call>, i: nat, j: nat)
    requires i < j <= |calls| && calls[i].NewId?
    ensures IdsIn(calls[..i]) < IdsIn(calls[..j])
    decreases j
  {
    assert calls[..j][..j - 1] == calls[..j - 1];
    if i == j - 1 {
    } else {
      IdsInMonotone(calls, i, j - 1);
    }
  }

  /**
   In every interleaving the transactions that a thread with a simulated clock creates,
   seeded or not, are distinct and in the order of their creation, other calls between
   them or not, and carry their types and parents.
   */
  lemma IdentifiersInOrder(bytes: ByteSource, t: Rng.ThreadId, w: World, run: seq<Event>, i: nat, j: nat)
    requires Local(w, t).clock.base.Some? && KeepsTime(CallsOf(t, run))
    requires WithinRange(Local(w, t).clock, IdsIn(CallsOf(t, run)))
    requires var calls := CallsOf(t, run);
      && i < j < |calls|
      && calls[i].NewId? && calls[i].request.NewTx? && calls[j].NewId? && calls[j].request.NewTx?
    ensures var outcomes := OutcomesOf(bytes, t, w, run);
      && |outcomes| == |CallsOf(t, run)| && outcomes[i].Id? && outcomes[j].Id?
      && Before(outcomes[i].tx, outcomes[j].tx)
      && (forall k | k in {i, j} ::
            && TypeOf(outcomes[k].tx) == Some(CallsOf(t, run)[k].request.ty)
            && outcomes[k].tx.parent == CallsOf(t, run)[k].request.parent)
  {
    hide OutcomesOf, CallsOf, Timestamp, TypeOf, IdsIn, Local;
    IdentifierAt(bytes, t, w, run, i);
    IdentifierAt(bytes, t, w, run, j);
    IdsInMonotone(CallsOf(t, run), i, j);
    EarlierOrdersFirst(OutcomesOf(bytes, t, w, run)[i].tx, OutcomesOf(bytes, t, w, run)[j].tx);
  }
}
