/**
 The deadline-bound worker pool of the option collector: daemon workers pop symbols from a
 shared list under a lock, work on them without the lock, and store a result only while the
 deadline has not passed. The caller joins every worker up to the deadline and takes a copy.

 `Pool` does what the code does under its lock, and each method promises the effect of one step.
 The steps of the workers, the clock and the caller come in any order. Every interleaving keeps
 each symbol in exactly one place, and an undisturbed run returns what a plain map over the
 symbols would.
 */
module WorkerPool {
  import opened Ordering
  import opened Wrappers

  /** `time.monotonic() > deadline`; no deadline is the source's infinity. */
  predicate Passed(now: int, deadline: Option<int>) {
    deadline.Some? && now > deadline.value
  }

  // ---- what is done under the lock

  class Pool<R(!new)> {
    var pending: seq<string>
    var results: map<string, R>
    const deadline: Option<int>

    constructor (symbols: seq<string>, deadline: Option<int>)
      ensures pending == Reversed(symbols) && results == map[] && this.deadline == deadline
    {
      pending := Reversed(symbols);
      results := map[];
      this.deadline := deadline;
    }

    /** A worker asks for its next symbol; nothing means that it must return. */
    method Take(now: int) returns (symbol: Option<string>)
      modifies this`pending
      ensures symbol.Some? <==> old(pending) != [] && (deadline.None? || now <= deadline.value)
      ensures if symbol.Some? then old(pending) == pending + [symbol.value] else pending == old(pending)
      // the effect of a worker's step
      ensures forall s: State<R>, w: nat, work: string -> R ::
                Enabled(s, Step.Take(w), deadline) && s.pending == old(pending) && s.clock == now ==>
                  && Apply(s, Step.Take(w), deadline, work).pending == pending
                  && Apply(s, Step.Take(w), deadline, work).workers[w] == (if symbol.Some? then Working(symbol.value) else Returned)
    {
      if pending == [] || Passed(now, deadline) { return None; }
      symbol := Some(pending[|pending| - 1]);
      pending := pending[..|pending| - 1];
    }

    method Store(symbol: string, result: R, now: int) returns (kept: bool)
      modifies this`results
      ensures kept <==> deadline.None? || now <= deadline.value
      ensures results == if kept then old(results)[symbol := result] else old(results)
      ensures forall s: State<R>, w: nat, work: string -> R ::
                Enabled(s, Finish(w), deadline) && s.workers[w] == Working(symbol) && work(symbol) == result
                && s.results == old(results) && s.clock == now ==>
                  && Apply(s, Finish(w), deadline, work).results == results
                  && Apply(s, Finish(w), deadline, work).late == s.late + (if kept then [] else [symbol])
    {
      kept := !Passed(now, deadline);
      if kept { results := results[symbol := result]; }
    }
  }

  function Reversed(s: seq<string>): seq<string> {
    if s == [] then [] else [s[|s| - 1]] + Reversed(s[..|s| - 1])
  }

  function Next(pending: seq<string>, now: int, deadline: Option<int>): Option<string> {
    if pending == [] || Passed(now, deadline) then None else Some(pending[|pending| - 1])
  }

  // ---- the pool as steps

  datatype Worker = Ready | Working(symbol: string) | Returned | Raised

  /** `late`, `crashed`, `taken` and `storedAt` record what happened; the program keeps no such lists. */
  datatype State<R> = State(
    pending: seq<string>, workers: seq<Worker>, results: map<string, R>, clock: int, snapshot: Option<map<string, R>>,
    late: seq<string>, crashed: seq<string>, taken: seq<string>, storedAt: map<string, int>)

  datatype Step = Tick(ticks: nat) | Take(w: nat) | Finish(w: nat) | Crash(w: nat) | Snapshot

  function Initial<R>(symbols: seq<string>, workers: nat, clock: int): State<R> {
    State(Reversed(symbols), seq(workers, _ => Ready), map[], clock, None, [], [], [], map[])
  }

  predicate IsDone(w: Worker) { w.Returned? || w.Raised? }

  /** Joining gives up on a worker at the deadline, so the copy is taken when all are done or the deadline is reached. */
  predicate Enabled<R>(s: State<R>, step: Step, deadline: Option<int>) {
    match step
    case Tick(_) => true
    case Take(w) => w < |s.workers| && s.workers[w].Ready?
    case Finish(w) => w < |s.workers| && s.workers[w].Working?
    case Crash(w) => w < |s.workers| && s.workers[w].Working?
    case Snapshot =>
      && s.snapshot.None?
      && ((forall w :: w in s.workers ==> IsDone(w)) || (deadline.Some? && s.clock >= deadline.value))
  }

  function Apply<R>(s: State<R>, step: Step, deadline: Option<int>, work: string -> R): State<R>
    requires Enabled(s, step, deadline)
  {
    match step
    case Tick(ticks) => s.(clock := s.clock + ticks)
    case Take(w) =>
      var next := Next(s.pending, s.clock, deadline);
      if next.None? then s.(workers := s.workers[w := Returned])
      else s.(pending := s.pending[..|s.pending| - 1], workers := s.workers[w := Working(next.value)],
              taken := s.taken + [next.value])
    case Finish(w) =>
      var symbol := s.workers[w].symbol;
      if Passed(s.clock, deadline) then s.(workers := s.workers[w := Ready], late := s.late + [symbol])
      else s.(workers := s.workers[w := Ready], results := s.results[symbol := work(symbol)],
              storedAt := s.storedAt[symbol := s.clock])
    case Crash(w) => s.(workers := s.workers[w := Raised], crashed := s.crashed + [s.workers[w].symbol])
    case Snapshot => s.(snapshot := Some(s.results))
  }

  ghost predicate IsRun<R>(symbols: seq<string>, states: seq<State<R>>, steps: seq<Step>, deadline: Option<int>, work: string -> R)
  {
    && |states| == |steps| + 1
    && states[0] == Initial(symbols, |states[0].workers|, states[0].clock)
    && forall i :: 0 <= i < |steps| ==>
         Enabled(states[i], steps[i], deadline) && states[i + 1] == Apply(states[i], steps[i], deadline, work)
  }

  ghost predicate Distinct(symbols: seq<string>) {
    forall i, j :: 0 <= i < j < |symbols| ==> symbols[i] != symbols[j]
  }

  // ---- where a symbol is

  function Same(x: string): string { x }

  function Held(w: Worker): Option<string> {
    if w.Working? then Some(w.symbol) else None
  }

  function InFlight<R>(s: State<R>, x: string): nat { Count(Held, s.workers, Some(x)) }

  function Places<R>(s: State<R>, x: string): nat {
    Count(Same, s.pending, x) + InFlight(s, x) + (if x in s.results then 1 else 0)
    + Count(Same, s.late, x) + Count(Same, s.crashed, x)
  }

  /** At the deadline itself it is not too late. */
  ghost predicate InTime(time: int, deadline: Option<int>) {
    deadline.Some? ==> time <= deadline.value
  }

  /** What every state of every run satisfies. */
  ghost predicate Invariant<R>(s: State<R>, symbols: seq<string>, deadline: Option<int>, work: string -> R) {
    && (forall x :: Places(s, x) == Count(Same, symbols, x))
    && (forall x :: Count(Same, s.taken, x) + Count(Same, s.pending, x) == Count(Same, symbols, x))
    && (forall x :: x in s.results ==> s.results[x] == work(x) && x in s.storedAt && InTime(s.storedAt[x], deadline))
    && (s.snapshot.Some? ==> s.snapshot.value.Items <= s.results.Items)
    && ((exists w :: w in s.workers && w.Returned?) ==> s.pending == [] || !InTime(s.clock, deadline))
    && (s.late != [] ==> !InTime(s.clock, deadline))
  }

  lemma {:induction false} DistinctCount(symbols: seq<string>, x: string)
    requires Distinct(symbols)
    ensures Count(Same, symbols, x) == if x in symbols then 1 else 0
  {
    if symbols != [] {
      var m := |symbols| - 1;
      DistinctCount(symbols[..m], x);
      assert symbols == symbols[..m] + [symbols[m]];
    }
  }

  lemma {:induction false} ReversedCount(s: seq<string>, x: string)
    ensures Count(Same, Reversed(s), x) == Count(Same, s, x)
  {
    if s != [] {
      var m := |s| - 1;
      ReversedCount(s[..m], x);
      CountAppend(Same, [s[m]], Reversed(s[..m]), x);
      CountOne(Same, s[m], x);
    }
  }

  lemma InitialInvariant<R>(symbols: seq<string>, workers: nat, clock: int, deadline: Option<int>, work: string -> R)
    ensures Invariant(Initial(symbols, workers, clock), symbols, deadline, work)
  {
    var s: State<R> := Initial(symbols, workers, clock);
    forall x ensures Places(s, x) == Count(Same, symbols, x) {
      ReversedCount(symbols, x);
      CountPositive(Held, s.workers, Some(x));
    }
    forall x ensures Count(Same, s.taken, x) + Count(Same, s.pending, x) == Count(Same, symbols, x) {
      ReversedCount(symbols, x);
    }
  }

  lemma TakeCounts<R>(s: State<R>, w: nat, deadline: Option<int>, work: string -> R, x: string)
    requires Enabled(s, Take(w), deadline)
    ensures var t := Apply(s, Take(w), deadline, work);
            && Places(t, x) == Places(s, x)
            && Count(Same, t.taken, x) + Count(Same, t.pending, x) == Count(Same, s.taken, x) + Count(Same, s.pending, x)
  {
    var t := Apply(s, Take(w), deadline, work);
    CountUpdate(Held, s.workers, w, t.workers[w], Some(x));
    var next := Next(s.pending, s.clock, deadline);
    if next.Some? {
      CountAppend(Same, s.taken, [next.value], x);
      CountOne(Same, next.value, x);
    }
  }

  lemma Released(workers: seq<Worker>, w: nat, x: string)
    requires w < |workers| && workers[w].Working?
    ensures Count(Held, workers, Some(x)) == Count(Held, workers[w := Ready], Some(x)) + if workers[w].symbol == x then 1 else 0
  {
    CountUpdate(Held, workers, w, Ready, Some(x));
    assert Held(workers[w]) == Some(workers[w].symbol);
  }

  lemma LateCount(late: seq<string>, symbol: string, x: string)
    ensures Count(Same, late + [symbol], x) == Count(Same, late, x) + if symbol == x then 1 else 0
  {
    CountAppend(Same, late, [symbol], x);
    CountOne(Same, symbol, x);
  }

  lemma FinishCounts<R>(s: State<R>, w: nat, deadline: Option<int>, work: string -> R, x: string)
    requires Enabled(s, Finish(w), deadline)
    requires Places(s, x) <= 1
    ensures Places(Apply(s, Finish(w), deadline, work), x) == Places(s, x)
  {
    var t, symbol := Apply(s, Finish(w), deadline, work), s.workers[w].symbol;
    Released(s.workers, w, x);
    LateCount(s.late, symbol, x);
    assert InFlight(s, x) == InFlight(t, x) + if symbol == x then 1 else 0;
    assert Count(Same, t.pending, x) == Count(Same, s.pending, x) && Count(Same, t.crashed, x) == Count(Same, s.crashed, x);
    if Passed(s.clock, deadline) {
      assert t.results == s.results && t.late == s.late + [symbol];
    } else {
      assert t.late == s.late && (x in t.results <==> x in s.results || symbol == x);
    }
  }

  lemma CrashCounts<R>(s: State<R>, w: nat, deadline: Option<int>, work: string -> R, x: string)
    requires Enabled(s, Crash(w), deadline)
    ensures Places(Apply(s, Crash(w), deadline, work), x) == Places(s, x)
  {
    var symbol := s.workers[w].symbol;
    CountUpdate(Held, s.workers, w, Raised, Some(x));
    CountAppend(Same, s.crashed, [symbol], x);
    CountOne(Same, symbol, x);
  }

  lemma StepKeepsCounts<R>(s: State<R>, step: Step, symbols: seq<string>, deadline: Option<int>, work: string -> R, x: string)
    requires Distinct(symbols) && Enabled(s, step, deadline) && Invariant(s, symbols, deadline, work)
    ensures var t := Apply(s, step, deadline, work);
            && Places(t, x) == Places(s, x)
            && Count(Same, t.taken, x) + Count(Same, t.pending, x) == Count(Same, s.taken, x) + Count(Same, s.pending, x)
  {
    DistinctCount(symbols, x);
    assert Places(s, x) == Count(Same, symbols, x);
    match step
    case Tick(_) =>
    case Take(w) => TakeCounts(s, w, deadline, work, x);
    case Finish(w) => FinishCounts(s, w, deadline, work, x);
    case Crash(w) => CrashCounts(s, w, deadline, work, x);
    case Snapshot =>
  }

  lemma StepKeepsResults<R>(s: State<R>, step: Step, symbols: seq<string>, deadline: Option<int>, work: string -> R)
    requires Distinct(symbols) && Enabled(s, step, deadline) && Invariant(s, symbols, deadline, work)
    ensures var t := Apply(s, step, deadline, work);
            && (forall x :: x in t.results ==> t.results[x] == work(x) && x in t.storedAt && InTime(t.storedAt[x], deadline))
            && s.results.Items <= t.results.Items
  {
    if step.Finish? {
      var x := s.workers[step.w].symbol;
      DistinctCount(symbols, x);
      assert Places(s, x) == Count(Same, symbols, x);
      CountPositive(Held, s.workers, Some(x));
      assert Held(s.workers[step.w]) == Some(x);
      assert x !in s.results;
    }
  }

  lemma StepKeepsWorkers<R>(s: State<R>, step: Step, symbols: seq<string>, deadline: Option<int>, work: string -> R)
    requires Enabled(s, step, deadline) && Invariant(s, symbols, deadline, work)
    ensures var t := Apply(s, step, deadline, work);
            && ((exists w :: w in t.workers && w.Returned?) ==> t.pending == [] || !InTime(t.clock, deadline))
            && (t.late != [] ==> !InTime(t.clock, deadline))
  {
    var t := Apply(s, step, deadline, work);
    if w :| w in t.workers && w.Returned? {
      if !(w in s.workers) {
        var i :| 0 <= i < |t.workers| && t.workers[i] == w;
        assert step.Take? && i == step.w;
      }
    }
  }

  lemma StepKeepsInvariant<R>(s: State<R>, step: Step, symbols: seq<string>, deadline: Option<int>, work: string -> R)
    requires Distinct(symbols) && Enabled(s, step, deadline) && Invariant(s, symbols, deadline, work)
    ensures Invariant(Apply(s, step, deadline, work), symbols, deadline, work)
  {
    var t := Apply(s, step, deadline, work);
    forall x
      ensures Places(t, x) == Count(Same, symbols, x)
      ensures Count(Same, t.taken, x) + Count(Same, t.pending, x) == Count(Same, symbols, x)
    {
      StepKeepsCounts(s, step, symbols, deadline, work, x);
    }
    StepKeepsResults(s, step, symbols, deadline, work);
    StepKeepsWorkers(s, step, symbols, deadline, work);
  }

  lemma {:induction false} InvariantHolds<R>(symbols: seq<string>, states: seq<State<R>>, steps: seq<Step>, deadline: Option<int>,
                                             work: string -> R, i: nat)
    requires Distinct(symbols) && IsRun(symbols, states, steps, deadline, work) && i < |states|
    ensures Invariant(states[i], symbols, deadline, work)
  {
    if i == 0 {
      InitialInvariant(symbols, |states[0].workers|, states[0].clock, deadline, work);
    } else {
      InvariantHolds(symbols, states, steps, deadline, work, i - 1);
      StepKeepsInvariant(states[i - 1], steps[i - 1], symbols, deadline, work);
    }
  }

  // ---- the main results

  /** In every interleaving each symbol is in exactly one place, other text is nowhere, and no symbol is worked twice. */
  lemma EverySymbolInOnePlace<R>(symbols: seq<string>, states: seq<State<R>>, steps: seq<Step>, deadline: Option<int>,
                                 work: string -> R, i: nat, x: string)
    requires Distinct(symbols) && IsRun(symbols, states, steps, deadline, work) && i < |states|
    ensures Places(states[i], x) == if x in symbols then 1 else 0
    ensures Count(Same, states[i].taken, x) <= 1
  {
    InvariantHolds(symbols, states, steps, deadline, work, i);
    DistinctCount(symbols, x);
    assert Places(states[i], x) == Count(Same, symbols, x);
  }

  /** The copy holds only results of `work` for the given symbols, each stored by the deadline. */
  lemma SnapshotHoldsTimelyResults<R>(symbols: seq<string>, states: seq<State<R>>, steps: seq<Step>, deadline: Option<int>,
                                      work: string -> R, i: nat, x: string)
    requires Distinct(symbols) && IsRun(symbols, states, steps, deadline, work) && i < |states|
    requires states[i].snapshot.Some? && x in states[i].snapshot.value
    ensures x in symbols && states[i].snapshot.value[x] == work(x)
    ensures x in states[i].storedAt && (deadline.Some? ==> states[i].storedAt[x] <= deadline.value)
  {
    var s := states[i];
    InvariantHolds(symbols, states, steps, deadline, work, i);
    assert (x, s.snapshot.value[x]) in s.snapshot.value.Items;
    assert (x, s.snapshot.value[x]) in s.results.Items;
    EverySymbolInOnePlace(symbols, states, steps, deadline, work, i, x);
  }

  /** A step past the deadline takes and stores nothing; a result that comes back then is late. */
  lemma NothingIsAddedPastTheDeadline<R>(symbols: seq<string>, states: seq<State<R>>, steps: seq<Step>, deadline: Option<int>,
                                         work: string -> R, i: nat)
    requires IsRun(symbols, states, steps, deadline, work) && i < |steps|
    requires deadline.Some? && states[i].clock > deadline.value
    ensures states[i + 1].taken == states[i].taken && states[i + 1].pending == states[i].pending
    ensures states[i + 1].results == states[i].results && states[i + 1].storedAt == states[i].storedAt
    ensures steps[i].Take? ==> states[i + 1].workers[steps[i].w] == Returned
    ensures steps[i].Finish? ==> states[i + 1].late == states[i].late + [states[i].workers[steps[i].w].symbol]
  {
    assert Enabled(states[i], steps[i], deadline) && states[i + 1] == Apply(states[i], steps[i], deadline, work);
  }

  /** Up to the deadline a worker that asks gets a symbol while one is left, and a result that comes back is stored. */
  lemma NothingIsLostUpToTheDeadline<R>(symbols: seq<string>, states: seq<State<R>>, steps: seq<Step>, deadline: Option<int>,
                                        work: string -> R, i: nat)
    requires IsRun(symbols, states, steps, deadline, work) && i < |steps|
    requires deadline.None? || states[i].clock <= deadline.value
    ensures states[i + 1].late == states[i].late
    ensures steps[i].Take? && states[i].pending != [] ==>
              && states[i + 1].workers[steps[i].w].Working?
              && states[i].pending == states[i + 1].pending + [states[i + 1].workers[steps[i].w].symbol]
    ensures steps[i].Finish? ==>
              var x := states[i].workers[steps[i].w].symbol;
              && states[i + 1].results == states[i].results[x := work(x)]
              && states[i + 1].storedAt == states[i].storedAt[x := states[i].clock]
  {
    assert Enabled(states[i], steps[i], deadline) && states[i + 1] == Apply(states[i], steps[i], deadline, work);
  }

  lemma {:induction false} ReversedIsBackwards(s: seq<string>)
    ensures |Reversed(s)| == |s| && forall k :: 0 <= k < |s| ==> Reversed(s)[k] == s[|s| - 1 - k]
  {
    if s != [] { ReversedIsBackwards(s[..|s| - 1]); }
  }

  /** Whichever worker asks, the symbols are handed out in the given order. */
  lemma {:induction false} SymbolsAreTakenInOrder<R>(symbols: seq<string>, states: seq<State<R>>, steps: seq<Step>,
                                                     deadline: Option<int>, work: string -> R, i: nat)
    requires IsRun(symbols, states, steps, deadline, work) && i < |states|
    ensures states[i].taken <= symbols && |states[i].taken| + |states[i].pending| == |symbols|
    ensures forall k :: 0 <= k < |states[i].pending| ==> states[i].pending[k] == symbols[|symbols| - 1 - k]
  {
    if i == 0 {
      ReversedIsBackwards(symbols);
    } else {
      SymbolsAreTakenInOrder(symbols, states, steps, deadline, work, i - 1);
      assert Enabled(states[i - 1], steps[i - 1], deadline)
             && states[i] == Apply(states[i - 1], steps[i - 1], deadline, work);
    }
  }

  /** Time passes by waiting alone: every other step is done at the moment it starts. */
  lemma OnlyWaitingTakesTime<R>(symbols: seq<string>, states: seq<State<R>>, steps: seq<Step>, deadline: Option<int>,
                                work: string -> R, i: nat)
    requires IsRun(symbols, states, steps, deadline, work) && i < |steps|
    ensures states[i + 1].clock == states[i].clock + if steps[i].Tick? then steps[i].ticks else 0
    ensures steps[i].Tick? ==> states[i + 1] == states[i].(clock := states[i + 1].clock)
    ensures forall ticks :: Enabled(states[i], Tick(ticks), deadline)
  {
    assert Enabled(states[i], steps[i], deadline) && states[i + 1] == Apply(states[i], steps[i], deadline, work);
  }

  /** The copy is taken once: what workers store afterwards never changes it. */
  lemma {:induction false} CopyIsTakenOnce<R>(symbols: seq<string>, states: seq<State<R>>, steps: seq<Step>, deadline: Option<int>,
                                              work: string -> R, i: nat, j: nat)
    requires IsRun(symbols, states, steps, deadline, work) && i <= j < |states| && states[i].snapshot.Some?
    ensures states[j].snapshot == states[i].snapshot
  {
    if i < j {
      CopyIsTakenOnce(symbols, states, steps, deadline, work, i, j - 1);
      assert Enabled(states[j - 1], steps[j - 1], deadline)
             && states[j] == Apply(states[j - 1], steps[j - 1], deadline, work);
    }
  }

  /** Until the copy is taken some worker can step, or the copy can be taken, now or once the clock reaches the deadline. */
  lemma PoolNeverStalls<R>(s: State<R>, deadline: Option<int>)
    requires s.snapshot.None?
    ensures || Enabled(s, Snapshot, deadline)
            || exists w: nat :: Enabled(s, Step.Take(w), deadline) || (Enabled(s, Finish(w), deadline) && Enabled(s, Crash(w), deadline))
    ensures deadline.Some? && s.clock >= deadline.value ==> Enabled(s, Snapshot, deadline)
  {
    if w :| w in s.workers && !IsDone(w) {
      var i :| 0 <= i < |s.workers| && s.workers[i] == w;
      assert if w.Ready? then Enabled(s, Step.Take(i), deadline) else Enabled(s, Finish(i), deadline);
    }
  }

  /** A copy is the whole map exactly when no symbol is pending, in flight, late or crashed at that moment. */
  lemma SnapshotIsCompleteWhenNothingIsLeft<R>(symbols: seq<string>, states: seq<State<R>>, steps: seq<Step>,
                                               deadline: Option<int>, work: string -> R, i: nat)
    requires Distinct(symbols) && IsRun(symbols, states, steps, deadline, work) && i < |steps| && steps[i].Snapshot?
    ensures states[i + 1].snapshot == Some(map x | x in symbols :: work(x))
            <==> && states[i].pending == [] && states[i].late == [] && states[i].crashed == []
                 && forall w :: w in states[i].workers ==> !w.Working?
  {
    var s := states[i];
    assert Enabled(s, steps[i], deadline) && states[i + 1] == Apply(s, steps[i], deadline, work);
    InvariantHolds(symbols, states, steps, deadline, work, i);
    var whole := map x | x in symbols :: work(x);
    forall x ensures x in s.results ==> x in symbols && s.results[x] == work(x) {
      EverySymbolInOnePlace(symbols, states, steps, deadline, work, i, x);
    }
    forall x | x in s.pending || x in s.late || x in s.crashed || Working(x) in s.workers
      ensures x in symbols && x !in s.results
    {
      EverySymbolInOnePlace(symbols, states, steps, deadline, work, i, x);
      PlacesCount(s, x);
    }
    if s.pending == [] && s.late == [] && s.crashed == [] && forall w :: w in s.workers ==> !w.Working? {
      forall x | x in symbols ensures x in s.results {
        EverySymbolInOnePlace(symbols, states, steps, deadline, work, i, x);
        CountPositive(Held, s.workers, Some(x));
      }
      assert s.results == whole;
    } else {
      var x := AnyLeft(s);
      assert x in whole && x !in s.results;
    }
  }

  /** Some symbol that is not finished. */
  lemma AnyLeft<R>(s: State<R>) returns (x: string)
    requires s.pending != [] || s.late != [] || s.crashed != [] || exists w :: w in s.workers && w.Working?
    ensures x in s.pending || x in s.late || x in s.crashed || Working(x) in s.workers
  {
    if s.pending != [] { return s.pending[0]; }
    if s.late != [] { return s.late[0]; }
    if s.crashed != [] { return s.crashed[0]; }
    var w :| w in s.workers && w.Working?;
    return w.symbol;
  }

  lemma PlacesCount<R>(s: State<R>, x: string)
    ensures (if x in s.pending then 1 else 0) + (if x in s.late then 1 else 0) + (if x in s.crashed then 1 else 0)
            + (if Working(x) in s.workers then 1 else 0) + (if x in s.results then 1 else 0) <= Places(s, x)
  {
    CountPositive(Same, s.pending, x);
    CountPositive(Same, s.late, x);
    CountPositive(Same, s.crashed, x);
    CountPositive(Held, s.workers, Some(x));
    if Working(x) in s.workers {
      var i :| 0 <= i < |s.workers| && s.workers[i] == Working(x);
      assert Held(s.workers[i]) == Some(x);
    }
    if x in s.pending { var i :| 0 <= i < |s.pending| && s.pending[i] == x; assert Same(s.pending[i]) == x; }
    if x in s.late { var i :| 0 <= i < |s.late| && s.late[i] == x; assert Same(s.late[i]) == x; }
    if x in s.crashed { var i :| 0 <= i < |s.crashed| && s.crashed[i] == x; assert Same(s.crashed[i]) == x; }
  }

  /** With at least one worker, no raising call and a deadline not yet reached, the copy is the plain map over the symbols. */
  lemma UndisturbedRunIsTheMap<R>(symbols: seq<string>, states: seq<State<R>>, steps: seq<Step>, deadline: Option<int>,
                                  work: string -> R, i: nat)
    requires Distinct(symbols) && IsRun(symbols, states, steps, deadline, work) && i < |steps| && steps[i].Snapshot?
    requires |states[0].workers| > 0
    requires states[i].crashed == [] && (deadline.Some? ==> states[i].clock < deadline.value)
    ensures states[i + 1].snapshot == Some(map x | x in symbols :: work(x))
  {
    var s := states[i];
    assert Enabled(s, steps[i], deadline);
    InvariantHolds(symbols, states, steps, deadline, work, i);
    RaisedMeansCrashed(symbols, states, steps, deadline, work, i);
    assert s.workers[0] in s.workers && IsDone(s.workers[0]);
    SnapshotIsCompleteWhenNothingIsLeft(symbols, states, steps, deadline, work, i);
  }

  /** At the deadline itself a copy may be taken while a result that still counts is on its way. */
  lemma CopyAtTheDeadlineCanMissAResult<R>(symbol: string, work: string -> R) returns (states: seq<State<R>>, steps: seq<Step>)
    ensures IsRun([symbol], states, steps, Some(0), work) && |steps| == 3 && steps[1] == Snapshot
    ensures states[1].clock == 0 && states[1].workers == [Working(symbol)]
    ensures states[2].snapshot == Some(map[])
    ensures symbol in states[3].results && states[3].storedAt[symbol] == 0 && states[3].late == []
  {
    var s0: State<R> := Initial([symbol], 1, 0);
    assert [symbol][..0] == [];
    assert s0.pending == [symbol] + Reversed([symbol][..0]) == [symbol] && s0.workers == [Ready];
    steps := [Step.Take(0), Snapshot, Finish(0)];
    var s1 := Apply(s0, steps[0], Some(0), work);
    var s2 := Apply(s1, steps[1], Some(0), work);
    states := [s0, s1, s2, Apply(s2, steps[2], Some(0), work)];
  }

  lemma {:induction false} RaisedMeansCrashed<R>(symbols: seq<string>, states: seq<State<R>>, steps: seq<Step>,
                                                 deadline: Option<int>, work: string -> R, i: nat)
    requires IsRun(symbols, states, steps, deadline, work) && i < |states|
    ensures |states[i].workers| == |states[0].workers|
    ensures states[i].crashed == [] ==> forall w :: w in states[i].workers ==> !w.Raised?
  {
    if i > 0 {
      RaisedMeansCrashed(symbols, states, steps, deadline, work, i - 1);
      assert Enabled(states[i - 1], steps[i - 1], deadline)
             && states[i] == Apply(states[i - 1], steps[i - 1], deadline, work);
    }
  }

  // ---- the symbols are made distinct first

  ghost predicate SeenBefore(symbols: seq<string>, a: string, b: string) {
    exists n :: 0 <= n <= |symbols| && a in symbols[..n] && b !in symbols[..n]
  }

  /** `list(dict.fromkeys(symbols))`: the first occurrence of each symbol, in order. */
  method FirstOccurrences(symbols: seq<string>) returns (kept: seq<string>)
    ensures Distinct(kept)
    ensures forall x :: x in kept <==> x in symbols
    ensures forall i, j :: 0 <= i < j < |kept| ==> SeenBefore(symbols, kept[i], kept[j])
  {
    kept := [];
    for n := 0 to |symbols|
      invariant Distinct(kept)
      invariant forall x :: x in kept <==> x in symbols[..n]
      invariant forall i, j :: 0 <= i < j < |kept| ==> SeenBefore(symbols, kept[i], kept[j])
    {
      if symbols[n] !in kept { kept := kept + [symbols[n]]; }
    }
  }
}
