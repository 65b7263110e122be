/**
 The per-thread random number source of `config.rs`: thread-local seed, generator and
 thread index, over one process-wide index counter.

 A generator is known by the seed it was created from and the queries it has
 answered, so an answer is determined by the seed, the earlier queries and the query.
 */
module GlobalRng {
  import opened Wrappers
  import opened Transactions

  type Query = int
  type ThreadId = nat

  const GOLDEN: nat := 0x9E37_79B9_7F4A_7C15

  datatype Generator = Generator(seed: U64, answered: seq<Query>)

  /** `THREAD_SEED`, `THREAD_RNG` and `THREAD_INDEX` of one thread. */
  datatype Locals = Locals(seed: Option<U64>, rng: Option<Generator>, index: Option<U64>)

  const FRESH := Locals(None, None, None)

  datatype Action = SetSeed(seed: U64) | ClearSeed | ThreadIndex | IsSeeded | WithRng(query: Query)

  datatype Output =
    | Nothing
    | Index(index: U64)
    | Flag(seeded: bool)
    | FromSeed(seed: U64, answered: seq<Query>, query: Query)
    | FromSystem

  /** The seed of a generator created on the thread with the given index. */
  function DerivedSeed(seed: U64, index: U64): U64 {
    (seed + (index * GOLDEN) % TWO_64) % TWO_64
  }

  /** `thread_index` on the thread's locals and the counter: index, locals, counter. */
  function TakeIndex(l: Locals, counter: U64): (U64, Locals, U64) {
    if l.index.Some? then (l.index.value, l, counter)
    else (counter, l.(index := Some(counter)), (counter + 1) % TWO_64)
  }

  /** One call on one thread: output, locals, counter. */
  function Act(l: Locals, counter: U64, a: Action): (Output, Locals, U64) {
    match a
    case SetSeed(s) => (Nothing, Locals(Some(s), None, Some(0)), counter)
    case ClearSeed => (Nothing, FRESH, counter)
    case ThreadIndex =>
      var (i, l', c) := TakeIndex(l, counter);
      (Index(i), l', c)
    case IsSeeded => (Flag(l.seed.Some?), l, counter)
    case WithRng(q) =>
      if l.seed.None? then (FromSystem, l, counter)
      else
        var (i, l', c) := if l.rng.Some? then (0, l, counter) else TakeIndex(l, counter);
        var g := if l.rng.Some? then l.rng.value else Generator(DerivedSeed(l.seed.value, i), []);
        (FromSeed(g.seed, g.answered, q), l'.(rng := Some(Generator(g.seed, g.answered + [q]))), c)
  }

  // ----- The same calls on mutable cells -----

  class IndexCounter {
    var next: U64

    constructor ()
      ensures next == 0
    {
      next := 0;
    }
  }

  class ThreadCells {
    var seed: Option<U64>
    var rng: Option<Generator>
    var index: Option<U64>

    function View(): Locals
      reads this
    {
      Locals(seed, rng, index)
    }

    constructor ()
      ensures View() == FRESH
    {
      seed, rng, index := None, None, None;
    }

    method SetThreadSeed(s: U64)
      modifies this
      ensures View() == Act(old(View()), 0, SetSeed(s)).1
    {
      seed := Some(s);
      rng := None;
      index := Some(0);
    }

    method Clear()
      modifies this
      ensures View() == FRESH
    {
      seed := None;
      rng := None;
      index := None;
    }

    method GetIndex(counter: IndexCounter) returns (i: U64)
      modifies this`index, counter
      ensures (i, View(), counter.next) == TakeIndex(old(View()), old(counter.next))
    {
      if index.Some? {
        i := index.value;
      } else {
        i := counter.next;
        counter.next := (counter.next + 1) % TWO_64;
        index := Some(i);
      }
    }

    /** Answers one query, creating the seeded generator on first use. */
    method Answer(counter: IndexCounter, q: Query) returns (o: Output)
      modifies this, counter
      ensures (o, View(), counter.next) == Act(old(View()), old(counter.next), WithRng(q))
    {
      if seed.None? {
        return FromSystem;
      }
      if rng.None? {
        var i := GetIndex(counter);
        rng := Some(Generator(DerivedSeed(seed.value, i), []));
      }
      var g := rng.value;
      o := FromSeed(g.seed, g.answered, q);
      rng := Some(Generator(g.seed, g.answered + [q]));
    }
  }

  // ----- All threads of the process -----

  datatype World = World(counter: U64, threads: map<ThreadId, Locals>)

  datatype Event = Event(thread: ThreadId, action: Action)

  const INITIAL := World(0, map[])

  function Local(w: World, t: ThreadId): Locals {
    if t in w.threads then w.threads[t] else FRESH
  }

  function Step(w: World, e: Event): (Output, World) {
    var (o, l, c) := Act(Local(w, e.thread), w.counter, e.action);
    (o, World(c, w.threads[e.thread := l]))
  }

  function After(w: World, run: seq<Event>): World {
    if run == [] then w else Step(After(w, run[..|run| - 1]), run[|run| - 1]).1
  }

  /** What the calls of thread `t` returned during the run. */
  function OutputsOf(t: ThreadId, w: World, run: seq<Event>): seq<Output> {
    if run == [] then []
    else
      var front, e := run[..|run| - 1], run[|run| - 1];
      OutputsOf(t, w, front) + (if e.thread == t then [Step(After(w, front), e).0] else [])
  }

  function ActionsOf(t: ThreadId, run: seq<Event>): seq<Action> {
    if run == [] then []
    else
      var front, e := run[..|run| - 1], run[|run| - 1];
      ActionsOf(t, front) + (if e.thread == t then [e.action] else [])
  }

  /** The step takes an index from the process-wide counter. */
  predicate DrawsIndex(w: World, e: Event) {
    var l := Local(w, e.thread);
    l.index.None? && (e.action.ThreadIndex? || (e.action.WithRng? && l.seed.Some? && l.rng.None?))
  }

  function IndicesDrawn(w: World, run: seq<Event>): nat {
    if run == [] then 0
    else
      var front := run[..|run| - 1];
      IndicesDrawn(w, front) + (if DrawsIndex(After(w, front), run[|run| - 1]) then 1 else 0)
  }

  // ----- What holds in every reachable state -----

  /** A seeded thread is pinned to index 0 and to exactly its seed; an unseeded one has no generator. */
  ghost predicate Pinned(l: Locals) {
    if l.seed.Some? then
      l.index == Some(0) && (l.rng.Some? ==> l.rng.value.seed == l.seed.value)
    else
      l.rng.None?
  }

  ghost predicate Unseeded(w: World, t: ThreadId) {
    Local(w, t).seed.None?
  }

  ghost predicate Invariant(w: World) {
    && (forall t :: Pinned(Local(w, t)))
    && (forall t :: Unseeded(w, t) && Local(w, t).index.Some? ==> Local(w, t).index.value < w.counter)
    && (forall t, u :: t != u && Unseeded(w, t) && Unseeded(w, u) && Local(w, t).index.Some?
                       ==> Local(w, t).index != Local(w, u).index)
  }

  /** Pinning makes the golden-ratio offset vanish. */
  lemma DerivesItsSeed(seed: U64)
    ensures DerivedSeed(seed, 0) == seed
  {
  }

  lemma StepKeepsInvariant(w: World, e: Event)
    requires Invariant(w) && w.counter + 1 < TWO_64
    ensures Invariant(Step(w, e).1)
  {
    var t := e.thread;
    var w' := Step(w, e).1;
    assert forall u :: u != t ==> Local(w', u) == Local(w, u);
    var l := Local(w, t);
    assert Pinned(l);
    if e.action.WithRng? && l.seed.Some? { DerivesItsSeed(l.seed.value); }
    hide DerivedSeed;
    assert Pinned(Local(w', t));
    forall u ensures Pinned(Local(w', u)) { if u != t { assert Pinned(Local(w, u)); } }
  }

  lemma {:induction false} CounterCounts(w: World, run: seq<Event>)
    requires w.counter + |run| < TWO_64
    ensures After(w, run).counter == w.counter + IndicesDrawn(w, run)
    ensures IndicesDrawn(w, run) <= |run|
  {
    hide Step, DrawsIndex;
    if run == [] {
    } else {
      var front := run[..|run| - 1];
      CounterCounts(w, front);
      StepCounts(After(w, front), run[|run| - 1]);
    }
  }

  lemma StepCounts(w: World, e: Event)
    requires w.counter + 1 < TWO_64
    ensures Step(w, e).1.counter == w.counter + (if DrawsIndex(w, e) then 1 else 0)
  {
    hide DerivedSeed;
  }

  /** Every state reachable by any interleaving of the threads' calls. */
  lemma {:induction false} Reachable(run: seq<Event>)
    requires |run| < TWO_64
    ensures Invariant(After(INITIAL, run))
    ensures After(INITIAL, run).counter == IndicesDrawn(INITIAL, run)
  {
    CounterCounts(INITIAL, run);
    if run == [] {
    } else {
      var front := run[..|run| - 1];
      Reachable(front);
      CounterCounts(INITIAL, front);
      StepKeepsInvariant(After(INITIAL, front), run[|run| - 1]);
    }
  }

  /** The `n`th index taken from the counter is `n`, and only `thread_index` on an unseeded thread takes one. */
  lemma DrawnIndex(run: seq<Event>, k: nat)
    requires k < |run| < TWO_64 && DrawsIndex(After(INITIAL, run[..k]), run[k])
    ensures var o := Step(After(INITIAL, run[..k]), run[k]).0;
      o.Index? && o.index == IndicesDrawn(INITIAL, run[..k])
    ensures Unseeded(After(INITIAL, run[..k]), run[k].thread)
    ensures IndicesDrawn(INITIAL, run[..k + 1]) == IndicesDrawn(INITIAL, run[..k]) + 1
  {
    Reachable(run[..k]);
    assert Pinned(Local(After(INITIAL, run[..k]), run[k].thread));
    assert run[..k + 1][..k] == run[..k];
  }

  lemma {:induction false} IndicesDrawnMonotone(run: seq<Event>, j: nat, k: nat)
    requires j <= k <= |run|
    ensures IndicesDrawn(INITIAL, run[..j]) <= IndicesDrawn(INITIAL, run[..k])
    decreases k
  {
    if j == k {
    } else {
      IndicesDrawnMonotone(run, j, k - 1);
      assert run[..k][..k - 1] == run[..k - 1];
    }
  }

  /** No index is ever taken twice, by whichever threads in whichever order. */
  lemma DrawnIndicesNeverRepeat(run: seq<Event>, j: nat, k: nat)
    requires j < k < |run| < TWO_64
    requires DrawsIndex(After(INITIAL, run[..j]), run[j]) && DrawsIndex(After(INITIAL, run[..k]), run[k])
    ensures var a, b := Step(After(INITIAL, run[..j]), run[j]).0, Step(After(INITIAL, run[..k]), run[k]).0;
      a.Index? && b.Index? && a.index < b.index
  {
    hide DrawsIndex, Step, After, IndicesDrawn;
    DrawnIndex(run, j);
    DrawnIndex(run, k);
    IndicesDrawnMonotone(run, j + 1, k);
  }

  /** Of the calls that set or clear the seed, the last one set it. */
  predicate LastSeeded(actions: seq<Action>) {
    actions != [] &&
    match actions[|actions| - 1]
    case SetSeed(_) => true
    case ClearSeed => false
    case _ => LastSeeded(actions[..|actions| - 1])
  }

  /** Thread `t` took the first index that was ever taken, and has not been seeded or cleared since. */
  ghost predicate HoldsFirstIndex(run: seq<Event>, t: ThreadId) {
    exists k :: 0 <= k < |run| && TakesFirstIndex(run, t, k)
  }

  ghost predicate TakesFirstIndex(run: seq<Event>, t: ThreadId, k: nat)
    requires k < |run|
  {
    && run[k].thread == t
    && DrawsIndex(After(INITIAL, run[..k]), run[k])
    && IndicesDrawn(INITIAL, run[..k]) == 0
    && (forall j :: k < j < |run| && run[j].thread == t ==> !Reseeds(run[j].action))
  }

  predicate Reseeds(a: Action) {
    a.SetSeed? || a.ClearSeed?
  }

  lemma {:induction false} SeededByCalls(run: seq<Event>, t: ThreadId)
    ensures Local(After(INITIAL, run), t).seed.Some? <==> LastSeeded(ActionsOf(t, run))
  {
    hide LastSeeded, Step;
    if run == [] {
      NothingSeeded(ActionsOf(t, run));
    } else {
      var front, e := run[..|run| - 1], run[|run| - 1];
      SeededByCalls(front, t);
      StepSeeds(After(INITIAL, front), e, t);
      LastSeededSnoc(ActionsOf(t, front), e.action);
      assert ActionsOf(t, front) + [] == ActionsOf(t, front);
    }
  }

  lemma NothingSeeded(actions: seq<Action>)
    requires actions == []
    ensures !LastSeeded(actions)
  {
  }

  lemma LastSeededSnoc(actions: seq<Action>, a: Action)
    ensures LastSeeded(actions + [a]) <==> a.SetSeed? || (!a.ClearSeed? && LastSeeded(actions))
  {
    assert (actions + [a])[..|actions|] == actions;
  }

  lemma StepSeeds(w: World, e: Event, t: ThreadId)
    ensures Local(Step(w, e).1, t).seed.Some? <==>
      if e.thread == t && Reseeds(e.action) then e.action.SetSeed? else Local(w, t).seed.Some?
  {
    hide DerivedSeed;
  }

  lemma HoldsFirstSnoc(run: seq<Event>, t: ThreadId)
    requires run != []
    ensures var front, e := run[..|run| - 1], run[|run| - 1];
      HoldsFirstIndex(run, t) <==>
        || (e.thread == t && DrawsIndex(After(INITIAL, front), e) && IndicesDrawn(INITIAL, front) == 0)
        || (HoldsFirstIndex(front, t) && !(e.thread == t && Reseeds(e.action)))
  {
    hide DrawsIndex, After, IndicesDrawn, Reseeds;
    var n := |run| - 1;
    var front, e := run[..n], run[n];
    forall k: nat | k < n
      ensures TakesFirstIndex(run, t, k) <==> TakesFirstIndex(front, t, k) && !(e.thread == t && Reseeds(e.action))
    {
      assert front[..k] == run[..k];
    }
    if e.thread == t && DrawsIndex(After(INITIAL, front), e) && IndicesDrawn(INITIAL, front) == 0 {
      assert TakesFirstIndex(run, t, n);
    }
    if HoldsFirstIndex(front, t) && !(e.thread == t && Reseeds(e.action)) {
      var k :| 0 <= k < n && TakesFirstIndex(front, t, k);
      assert TakesFirstIndex(run, t, k);
    }
  }

  /** What one call does to an unseeded thread's hold on index 0. */
  lemma StepIndexZero(w: World, e: Event, t: ThreadId)
    requires Pinned(Local(w, t))
    ensures var l, l' := Local(w, t), Local(Step(w, e).1, t);
      l'.seed.None? && l'.index == Some(0) <==>
        || (e.thread == t && DrawsIndex(w, e) && w.counter == 0)
        || (l.seed.None? && l.index == Some(0) && !(e.thread == t && Reseeds(e.action)))
  {
    hide DerivedSeed;
  }

  lemma {:induction false} FirstIndexByCalls(run: seq<Event>, t: ThreadId)
    requires |run| < TWO_64
    ensures var l := Local(After(INITIAL, run), t);
      l.seed.None? && l.index == Some(0) <==> HoldsFirstIndex(run, t)
  {
    if run == [] {
    } else {
      var front, e := run[..|run| - 1], run[|run| - 1];
      FirstIndexByCalls(front, t);
      Reachable(front);
      HoldsFirstSnoc(run, t);
      hide HoldsFirstIndex, DrawsIndex, Reseeds, Step;
      assert Pinned(Local(After(INITIAL, front), t));
      StepIndexZero(After(INITIAL, front), e, t);
    }
  }

  /**
   Thread indices are not unique across the process, although they are documented to
   be.  Two threads share one exactly when both were seeded last, or one was and the
   other took the very first index and has been neither seeded nor cleared since.
   */
  lemma SharedIndexExactly(run: seq<Event>, t: ThreadId, u: ThreadId)
    requires |run| < TWO_64 && t != u
    ensures var w := After(INITIAL, run);
      Local(w, t).index.Some? && Local(w, t).index == Local(w, u).index <==>
        || (LastSeeded(ActionsOf(t, run)) && LastSeeded(ActionsOf(u, run)))
        || (LastSeeded(ActionsOf(t, run)) && HoldsFirstIndex(run, u))
        || (HoldsFirstIndex(run, t) && LastSeeded(ActionsOf(u, run)))
  {
    hide After, HoldsFirstIndex, LastSeeded;
    Reachable(run);
    SeededByCalls(run, t);
    SeededByCalls(run, u);
    FirstIndexByCalls(run, t);
    FirstIndexByCalls(run, u);
    var w := After(INITIAL, run);
    assert Pinned(Local(w, t)) && Pinned(Local(w, u));
    assert Unseeded(w, t) <==> Local(w, t).seed.None?;
    assert Unseeded(w, u) <==> Local(w, u).seed.None?;
  }

  /** The shortest such run: one thread takes the first index, another one is seeded. */
  lemma IndicesCollide()
    ensures var w := After(INITIAL, [Event(1, ThreadIndex), Event(2, SetSeed(7))]);
      Local(w, 1).index == Local(w, 2).index == Some(0)
  {
    var run := [Event(1, ThreadIndex), Event(2, SetSeed(7))];
    assert run[..1] == [run[0]] && run[..1][..0] == [];
  }

  // ----- Seeded randomness is a private affair -----

  /** The outputs of a thread seeded with `seed` that made the calls `actions` alone. */
  function Solo(seed: U64, answered: seq<Query>, actions: seq<Action>): seq<Output>
    decreases |actions|
  {
    if actions == [] then []
    else
      match actions[0]
      case WithRng(q) => [FromSeed(seed, answered, q)] + Solo(seed, answered + [q], actions[1..])
      case SetSeed(s) => [Nothing] + Solo(s, [], actions[1..])
      case ThreadIndex => [Index(0)] + Solo(seed, answered, actions[1..])
      case IsSeeded => [Flag(true)] + Solo(seed, answered, actions[1..])
      case ClearSeed => []
  }

  /** The locals of such a thread after those calls. */
  ghost predicate SeededWith(l: Locals, seed: U64, answered: seq<Query>) {
    && l.seed == Some(seed) && l.index == Some(0)
    && (l.rng == Some(Generator(seed, answered)) || (l.rng == None && answered == []))
  }

  ghost function SeedAfter(seed: U64, answered: seq<Query>, actions: seq<Action>): (U64, seq<Query>) {
    if actions == [] then (seed, answered)
    else
      var (s, a) := SeedAfter(seed, answered, actions[..|actions| - 1]);
      match actions[|actions| - 1]
      case WithRng(q) => (s, a + [q])
      case SetSeed(s') => (s', [])
      case _ => (s, a)
  }

  ghost predicate NoClear(actions: seq<Action>) {
    forall i :: 0 <= i < |actions| ==> !actions[i].ClearSeed?
  }

  lemma {:induction false} SoloSnoc(seed: U64, answered: seq<Query>, actions: seq<Action>, a: Action)
    requires NoClear(actions) && !a.ClearSeed?
    ensures var (s, h) := SeedAfter(seed, answered, actions);
      Solo(seed, answered, actions + [a]) == Solo(seed, answered, actions) + Solo(s, h, [a])
    decreases |actions|
  {
    if actions == [] {
      assert actions + [a] == [a];
    } else {
      hide Solo, SeedAfter;
      var (s', h') := SeedAfter(seed, answered, [actions[0]]);
      SeedAfterCons(seed, answered, actions);
      SoloSnoc(s', h', actions[1..], a);
      assert (actions + [a])[1..] == actions[1..] + [a];
      SoloCons(seed, answered, actions);
      SoloCons(seed, answered, actions + [a]);
    }
  }

  lemma SoloCons(seed: U64, answered: seq<Query>, actions: seq<Action>)
    requires actions != [] && !actions[0].ClearSeed?
    ensures var (s', h') := SeedAfter(seed, answered, [actions[0]]);
      Solo(seed, answered, actions) == Solo(seed, answered, [actions[0]]) + Solo(s', h', actions[1..])
  {
    SeedAfterOne(seed, answered, actions[0]);
    hide SeedAfter;
    assert [actions[0]][1..] == [];
  }

  lemma SeedAfterOne(seed: U64, answered: seq<Query>, a: Action)
    ensures SeedAfter(seed, answered, [a]) ==
      if a.WithRng? then (seed, answered + [a.query]) else if a.SetSeed? then (a.seed, []) else (seed, answered)
  {
    assert [a][..0] == [];
  }

  lemma {:induction false} SeedAfterCons(seed: U64, answered: seq<Query>, actions: seq<Action>)
    requires actions != []
    ensures var (s', h') := SeedAfter(seed, answered, [actions[0]]);
      SeedAfter(seed, answered, actions) == SeedAfter(s', h', actions[1..])
    decreases |actions|
  {
    var n := |actions| - 1;
    assert [actions[0]][..0] == [];
    if n > 0 {
      SeedAfterCons(seed, answered, actions[..n]);
      assert actions[..n][1..] == actions[1..][..n - 1];
    } else {
      assert actions == [actions[0]];
    }
  }

  /**
   Non-interference.  From any state in which thread `t` has just been seeded, any
   interleaving with any other threads gives `t` exactly the outputs of its own calls
   run alone from that seed, as long as it does not clear the seed.
   */
  lemma {:induction false} NonInterference(w: World, t: ThreadId, seed: U64, run: seq<Event>)
    requires SeededWith(Local(w, t), seed, []) && NoClear(ActionsOf(t, run))
    ensures OutputsOf(t, w, run) == Solo(seed, [], ActionsOf(t, run))
    ensures var (s, h) := SeedAfter(seed, [], ActionsOf(t, run)); SeededWith(Local(After(w, run), t), s, h)
  {
    if run == [] {
    } else {
      var front, e := run[..|run| - 1], run[|run| - 1];
      var mine := ActionsOf(t, front);
      if e.thread == t {
        assert ActionsOf(t, run) == mine + [e.action];
        assert ActionsOf(t, run)[|mine|] == e.action;
        assert forall i :: 0 <= i < |mine| ==> mine[i] == ActionsOf(t, run)[i];
        NonInterference(w, t, seed, front);
        var (s, h) := SeedAfter(seed, [], mine);
        SoloSnoc(seed, [], mine, e.action);
        SeededStep(After(w, front), t, e.action, s, h);
        SeedAfterSnoc(seed, [], mine, e.action);
        assert e == Event(t, e.action);
      } else {
        assert ActionsOf(t, run) == mine;
        NonInterference(w, t, seed, front);
        assert Local(After(w, run), t) == Local(After(w, front), t);
      }
    }
  }

  lemma SeedAfterSnoc(seed: U64, answered: seq<Query>, actions: seq<Action>, a: Action)
    ensures var (s, h) := SeedAfter(seed, answered, actions);
      SeedAfter(seed, answered, actions + [a]) == SeedAfter(s, h, [a])
  {
    assert (actions + [a])[..|actions|] == actions;
    assert [a][..0] == [];
  }

  lemma SeededStep(w: World, t: ThreadId, a: Action, seed: U64, answered: seq<Query>)
    requires SeededWith(Local(w, t), seed, answered) && !a.ClearSeed?
    ensures [Step(w, Event(t, a)).0] == Solo(seed, answered, [a])
    ensures var (s, h) := SeedAfter(seed, answered, [a]);
      SeededWith(Local(Step(w, Event(t, a)).1, t), s, h)
  {
    assert [a][1..] == [] && [a][..0] == [];
    DerivesItsSeed(seed);
    hide DerivedSeed;
  }

  /** Two processes that differ in everything but what `t` does after `set_seed(s)` agree on what `t` sees. */
  lemma SameSeedSameOutputs(w: World, w': World, t: ThreadId, seed: U64, run: seq<Event>, run': seq<Event>)
    requires ActionsOf(t, run) == ActionsOf(t, run') && NoClear(ActionsOf(t, run))
    ensures OutputsOf(t, Step(w, Event(t, SetSeed(seed))).1, run)
         == OutputsOf(t, Step(w', Event(t, SetSeed(seed))).1, run')
  {
    NonInterference(Step(w, Event(t, SetSeed(seed))).1, t, seed, run);
    NonInterference(Step(w', Event(t, SetSeed(seed))).1, t, seed, run');
  }
}
