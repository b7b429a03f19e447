/**
 The launcher's intent-environment ownership protocol. Two environment keys carry intent to
 child processes. The launcher keeps a map of the values it set itself, and inside a window
 under one lock it reconciles that map, runs a child, and then adopts or clears keys, while
 any other code in the process may write the same keys at any moment.

 `Launcher` holds the two maps and the operations on them; each of its methods promises the
 effect of one protocol step. The rest of the module runs those steps, interleaved with outside
 writes, and proves what every run keeps.
 */
module IntentOwnership {
  import opened Wrappers

  datatype Key = ModelProfile | RuntimeBinding

  type Env = map<Key, string>

  function Get(env: Env, key: Key): Option<string> {
    if key in env then Some(env[key]) else None
  }

  /** `SetEnvironmentVariable`: a null or empty value deletes the variable. */
  function Put(env: Env, key: Key, value: Option<string>): Env {
    if value.None? || value.value == "" then env - {key} else env[key := value.value]
  }

  /** The keys whose owned value still stands in the environment. */
  function Reconciled(env: Env, owned: Env): Env {
    map key | key in owned && Get(env, key) == Some(owned[key]) :: owned[key]
  }

  function ChildEnvironment(env: Env, owned: Env): Env {
    env - Reconciled(env, owned).Keys
  }

  /** What a save or select window notes before its child runs. */
  datatype Capture = Capture(writable: set<Key>, envBefore: Env, ownedBefore: set<Key>)

  function CaptureOf(env: Env, owned: Env): Capture {
    var kept := Reconciled(env, owned);
    Capture((set key: Key | key !in env || key in kept), env, kept.Keys)
  }

  /** The check before a key is adopted, made on the reconciled owned map. */
  predicate MayAdopt(c: Capture, env: Env, kept: Env, key: Key) {
    && key in c.writable
    && Get(env, key) == Get(c.envBefore, key)
    && (key in c.ownedBefore ==> key in kept)
  }

  // ---- the operations on the two maps

  class Launcher {
    var env: Env      // the process environment, shared with all other code
    var owned: Env    // OwnedIntentEnvironment

    constructor (env: Env)
      ensures this.env == env && owned == map[]
    {
      this.env := env;
      owned := map[];
    }

    method Reconcile()
      modifies this`owned
      ensures owned == Reconciled(env, old(owned))
      ensures forall s: State :: IsAt(s, old(env), old(owned)) && Enabled(s, OpenRemoving) ==> IsAt(Apply(s, OpenRemoving), env, owned)
    {
      var keys := owned.Keys;
      while keys != {}
        invariant keys <= old(owned).Keys
        invariant owned == map key | key in old(owned) && (key in keys || Get(env, key) == Some(old(owned)[key])) :: old(owned)[key]
      {
        var key :| key in keys;
        if Get(env, key) != Some(owned[key]) { owned := owned - {key}; }
        keys := keys - {key};
      }
    }

    method ClearOwnedForChild() returns (child: Env)
      modifies this`owned
      ensures owned == Reconciled(env, old(owned))
      ensures child == ChildEnvironment(env, old(owned))
      ensures forall key :: key in env ==> (key in child <==> key !in owned)
      ensures forall s: State, step :: step in {StartChild, SpawnHelper} && IsAt(s, old(env), old(owned)) && Enabled(s, step) ==>
                IsAt(Apply(s, step), env, owned)
    {
      Reconcile();
      child := env - owned.Keys;
    }

    method OpenWindow() returns (c: Capture)
      modifies this`owned
      ensures owned == Reconciled(env, old(owned)) && c == CaptureOf(env, old(owned))
      ensures forall s: State :: IsAt(s, old(env), old(owned)) && Enabled(s, OpenAdopting) ==>
                IsAt(Apply(s, OpenAdopting), env, owned) && Apply(s, OpenAdopting).window.capture == c
    {
      Reconcile();
      c := Capture((set key: Key | key !in env || key in owned), env, owned.Keys);
    }

    method Adopt(c: Capture, key: Key, value: string)
      modifies this
      ensures var kept := Reconciled(old(env), old(owned));
              if MayAdopt(c, old(env), kept, key)
              then env == Put(old(env), key, Some(value)) && owned == kept[key := value]
              else env == old(env) && owned == kept
      ensures forall s: State ::
                IsAt(s, old(env), old(owned)) && Enabled(s, AdoptKey(value)) && s.window.capture == c && s.window.phase.todo[0] == key ==>
                  IsAt(Apply(s, AdoptKey(value)), env, owned)
    {
      Reconcile();
      if key !in c.writable || Get(env, key) != Get(c.envBefore, key) || (key in c.ownedBefore && key !in owned) {
        return;
      }
      env := Put(env, key, Some(value));
      owned := owned[key := value];
    }

    method ClearOwnedKey(key: Key)
      requires key in owned
      modifies this`env
      ensures env == if Get(old(env), key) == Some(owned[key]) then Put(old(env), key, None) else old(env)
      ensures forall s: State ::
                IsAt(s, old(env), old(owned)) && Enabled(s, ClearKey) && s.window.phase.todo[0] == key ==>
                  IsAt(Apply(s, ClearKey), env, owned)
    {
      if Get(env, key) == Some(owned[key]) { env := Put(env, key, None); }
    }

    method ForgetOwned()
      modifies this`owned
      ensures owned == map[]
      ensures forall s: State :: IsAt(s, old(env), old(owned)) && Enabled(s, Close) && s.window.Removing? ==> IsAt(Apply(s, Close), env, owned)
    {
      owned := map[];
    }
  }

  // ---- the protocol as steps

  datatype Phase = BeforeChild | ChildRunning | AfterChild(todo: seq<Key>)

  datatype Window = NoWindow | Adopting(capture: Capture, phase: Phase) | Removing(phase: Phase)

  /** `outsideLast` is not program state: the keys whose last change came from outside the launcher. */
  datatype State = State(env: Env, owned: Env, window: Window, outsideLast: set<Key>)

  datatype Step =
    | Outside(key: Key, put: Option<string>)    // any other code, at any time; SaveSelection included
    | SpawnHelper                               // a catalogue child without a window
    | OpenAdopting                              // SaveExplicitBinding, RunCatalogSelection
    | OpenRemoving                              // RemoveExplicitBinding
    | StartChild
    | ChildFails                                // a non-zero exit, a timeout or an exception
    | ChildSucceeds(order: seq<Key>)            // the keys in the order they will be visited
    | AdoptKey(bytes: string)
    | ClearKey
    | Close                                     // also a selection whose scope is not verified intent

  predicate Enabled(s: State, step: Step) {
    match step
    case Outside(_, _) => true
    case SpawnHelper | OpenAdopting | OpenRemoving => s.window.NoWindow?
    case StartChild => !s.window.NoWindow? && s.window.phase.BeforeChild?
    case ChildFails => !s.window.NoWindow? && !s.window.phase.AfterChild?
    case ChildSucceeds(order) =>
      && !s.window.NoWindow? && s.window.phase.ChildRunning?
      && (s.window.Adopting? ==> order == [ModelProfile, RuntimeBinding])
      && (s.window.Removing? ==> |order| == |s.owned| && multiset(order) == multiset(s.owned.Keys))
    case AdoptKey(_) => s.window.Adopting? && s.window.phase.AfterChild? && s.window.phase.todo != []
    case ClearKey => s.window.Removing? && s.window.phase.AfterChild? && s.window.phase.todo != []
    case Close => !s.window.NoWindow? && s.window.phase.AfterChild? && (s.window.Removing? ==> s.window.phase.todo == [])
  }

  function Apply(s: State, step: Step): State
    requires Enabled(s, step)
  {
    var kept := Reconciled(s.env, s.owned);
    match step
    case Outside(key, value) => s.(env := Put(s.env, key, value), outsideLast := s.outsideLast + {key})
    case SpawnHelper => s.(owned := kept)
    case OpenAdopting => s.(owned := kept, window := Adopting(CaptureOf(s.env, s.owned), BeforeChild))
    case OpenRemoving => s.(owned := kept, window := Removing(BeforeChild))
    case StartChild => s.(owned := kept, window := s.window.(phase := ChildRunning))
    case ChildFails => s.(window := NoWindow)
    case ChildSucceeds(order) => s.(window := s.window.(phase := AfterChild(order)))
    case AdoptKey(value) =>
      var key := s.window.phase.todo[0];
      var rest := s.window.(phase := AfterChild(s.window.phase.todo[1..]));
      if MayAdopt(s.window.capture, s.env, kept, key)
      then State(Put(s.env, key, Some(value)), kept[key := value], rest, s.outsideLast - {key})
      else s.(owned := kept, window := rest)
    case ClearKey =>
      var key := s.window.phase.todo[0];
      var rest := s.window.(phase := AfterChild(s.window.phase.todo[1..]));
      if key in s.owned && Get(s.env, key) == Some(s.owned[key])
      then s.(env := Put(s.env, key, None), window := rest, outsideLast := s.outsideLast - {key})
      else s.(window := rest)
    case Close => s.(owned := if s.window.Removing? then map[] else s.owned, window := NoWindow)
  }

  /** The two maps of a state are these. */
  predicate IsAt(s: State, env: Env, owned: Env) { s.env == env && s.owned == owned }

  predicate Starts(s: State) {
    s.owned == map[] && s.window.NoWindow? && forall key :: key in s.env ==> key in s.outsideLast
  }

  ghost predicate Follows(states: seq<State>, steps: seq<Step>) {
    && |states| == |steps| + 1
    && forall i :: 0 <= i < |steps| ==> Enabled(states[i], steps[i]) && states[i + 1] == Apply(states[i], steps[i])
  }

  ghost predicate IsRun(states: seq<State>, steps: seq<Step>) {
    Follows(states, steps) && Starts(states[0])
  }

  // ---- the launcher writes or clears only absent keys and its own bytes

  /** A step of the launcher sets or deletes `key`. */
  ghost predicate Touches(s: State, step: Step, key: Key)
    requires Enabled(s, step)
  {
    match step
    case AdoptKey(_) => key == s.window.phase.todo[0] && MayAdopt(s.window.capture, s.env, Reconciled(s.env, s.owned), key)
    case ClearKey => key == s.window.phase.todo[0] && key in s.owned && Get(s.env, key) == Some(s.owned[key])
    case _ => false
  }

  /** At step `j` the launcher adopted `key` with exactly these bytes. */
  ghost predicate LauncherWrote(states: seq<State>, steps: seq<Step>, j: nat, key: Key, value: string)
    requires Follows(states, steps)
  {
    j < |steps| && steps[j] == AdoptKey(value) && Touches(states[j], steps[j], key)
  }

  /** What a captured window remembers: a writable key was absent, or owned, when the window opened. */
  ghost predicate CaptureHolds(s: State) {
    s.window.Adopting? ==>
      forall key :: key in s.window.capture.writable ==>
        key !in s.window.capture.envBefore || key in s.window.capture.ownedBefore
  }

  lemma {:induction false} CaptureHoldsThroughout(states: seq<State>, steps: seq<Step>, i: nat)
    requires IsRun(states, steps) && i < |states|
    ensures CaptureHolds(states[i])
  {
    if i > 0 {
      CaptureHoldsThroughout(states, steps, i - 1);
      assert Enabled(states[i - 1], steps[i - 1]) && states[i] == Apply(states[i - 1], steps[i - 1]);
    }
  }

  /** Ownership has provenance: an owned value was adopted, with those bytes, earlier in the run. */
  lemma {:induction false} OwnedBytesWereWritten(states: seq<State>, steps: seq<Step>, i: nat, key: Key) returns (j: nat)
    requires IsRun(states, steps) && i < |states| && key in states[i].owned
    ensures j < i && LauncherWrote(states, steps, j, key, states[i].owned[key])
  {
    assert i > 0;
    var s, step := states[i - 1], steps[i - 1];
    assert Enabled(s, step) && states[i] == Apply(s, step);
    if step.AdoptKey? && Touches(s, step, key) {
      j := i - 1;
    } else {
      assert key in s.owned && s.owned[key] == states[i].owned[key];
      j := OwnedBytesWereWritten(states, steps, i - 1, key);
    }
  }

  /** The main result: a key the launcher sets or deletes is absent, or holds bytes the launcher adopted earlier. */
  lemma LauncherTouchesOnlyItsOwn(states: seq<State>, steps: seq<Step>, i: nat, key: Key)
    requires IsRun(states, steps) && i < |steps| && Touches(states[i], steps[i], key)
    ensures key !in states[i].env || exists j: nat :: j < i && LauncherWrote(states, steps, j, key, states[i].env[key])
  {
    CaptureHoldsThroughout(states, steps, i);
    if key in states[i].env {
      assert key in states[i].owned && states[i].owned[key] == states[i].env[key];
      var j := OwnedBytesWereWritten(states, steps, i, key);
    }
  }

  /** And no other launcher step changes the environment at all. */
  lemma OnlyTouchesChangeTheEnvironment(s: State, step: Step, key: Key)
    requires Enabled(s, step) && !step.Outside?
    ensures Get(Apply(s, step).env, key) != Get(s.env, key) ==> Touches(s, step, key)
  {
  }

  // ---- outside intent survives

  /** An outside value at `key` that the launcher does not own. */
  ghost predicate HoldsOutsideIntent(s: State, key: Key, value: string) {
    Get(s.env, key) == Some(value) && key !in s.owned
  }

  lemma StepKeepsOutsideIntent(s: State, step: Step, key: Key, value: string)
    requires Enabled(s, step) && CaptureHolds(s) && HoldsOutsideIntent(s, key, value)
    requires !(step.Outside? && step.key == key)
    ensures HoldsOutsideIntent(Apply(s, step), key, value)
  {
    if step.AdoptKey? && s.window.phase.todo[0] == key {
      assert key !in Reconciled(s.env, s.owned);
      assert !MayAdopt(s.window.capture, s.env, Reconciled(s.env, s.owned), key);
    }
  }

  /** Until outside code changes it again, it keeps its bytes and is never adopted, whatever windows run. */
  lemma {:induction false} OutsideIntentSurvives(states: seq<State>, steps: seq<Step>, i: nat, n: nat, key: Key, value: string)
    requires IsRun(states, steps) && i <= n < |states|
    requires HoldsOutsideIntent(states[i], key, value)
    requires forall j :: i <= j < n ==> !(steps[j].Outside? && steps[j].key == key)
    ensures HoldsOutsideIntent(states[n], key, value)
  {
    if i < n {
      OutsideIntentSurvives(states, steps, i, n - 1, key, value);
      CaptureHoldsThroughout(states, steps, n - 1);
      StepKeepsOutsideIntent(states[n - 1], steps[n - 1], key, value);
    }
  }

  // ---- a failed child

  /** What the outside writes alone make of an environment. */
  function OutsideEffect(env: Env, steps: seq<Step>): Env {
    if steps == [] then env
    else
      var before := OutsideEffect(env, steps[..|steps| - 1]);
      match steps[|steps| - 1]
      case Outside(key, value) => Put(before, key, value)
      case _ => before
  }

  ghost predicate IsChildPhase(s: State) {
    !s.window.NoWindow? && !s.window.phase.AfterChild?
  }

  lemma {:induction false} BeforeTheChildEnds(states: seq<State>, steps: seq<Step>, n: nat)
    requires Follows(states, steps) && 0 < n <= |steps|
    requires steps[0].OpenAdopting? || steps[0].OpenRemoving?
    requires forall i :: 0 < i <= n ==> IsChildPhase(states[i])
    ensures states[n].env == OutsideEffect(states[0].env, steps[..n])
    ensures states[n].owned.Items <= states[0].owned.Items
  {
    assert steps[..n][..n - 1] == steps[..n - 1];
    assert Enabled(states[n - 1], steps[n - 1]) && states[n] == Apply(states[n - 1], steps[n - 1]);
    if n > 1 {
      assert IsChildPhase(states[n - 1]) && IsChildPhase(states[n]);
      BeforeTheChildEnds(states, steps, n - 1);
      assert states[n].owned.Items <= states[n - 1].owned.Items;
    } else {
      assert steps[..0] == [];
    }
  }

  /** A window whose child fails leaves the environment to the outside writes and can only shrink the owned map. */
  lemma FailedChildChangesNothing(states: seq<State>, steps: seq<Step>)
    requires Follows(states, steps) && |steps| >= 2
    requires steps[0].OpenAdopting? || steps[0].OpenRemoving?
    requires steps[|steps| - 1].ChildFails?
    requires forall i :: 0 < i < |steps| ==> IsChildPhase(states[i])
    ensures states[|steps|].env == OutsideEffect(states[0].env, steps)
    ensures states[|steps|].owned.Items <= states[0].owned.Items && states[|steps|].window.NoWindow?
  {
    var n := |steps| - 1;
    BeforeTheChildEnds(states, steps, n);
    assert Enabled(states[n], steps[n]) && states[n + 1] == Apply(states[n], steps[n]);
    assert steps == steps[..n] + [steps[n]];
  }

  /** In a run, a child inherits a present key exactly when the launcher does not own its value at that moment. */
  lemma ChildInheritance(states: seq<State>, steps: seq<Step>, i: nat, key: Key)
    requires IsRun(states, steps) && i < |steps| && (steps[i].StartChild? || steps[i].SpawnHelper?)
    requires key in states[i].env
    ensures var child := ChildEnvironment(states[i].env, states[i].owned);
            && (key in child <==> key !in states[i + 1].owned)
            && (key in child ==> child[key] == states[i].env[key])
            && (key !in child ==> exists j: nat :: j < i && LauncherWrote(states, steps, j, key, states[i].env[key]))
  {
    assert Enabled(states[i], steps[i]) && states[i + 1] == Apply(states[i], steps[i]);
    if key in states[i + 1].owned {
      var j := OwnedBytesWereWritten(states, steps, i, key);
    }
  }

  // ---- where value equality is not provenance

  /** Outside code writes the very bytes the launcher owns at that key. */
  ghost predicate CopiesOwnedBytes(s: State, step: Step) {
    step.Outside? && step.key in s.owned && step.put == Some(s.owned[step.key])
  }

  /** At step `j` outside code copied the owned bytes of `key`, and the launcher has not set or deleted the key since. */
  ghost predicate IsStandingCopy(states: seq<State>, steps: seq<Step>, i: nat, key: Key, j: nat)
    requires Follows(states, steps) && i <= |steps|
  {
    && j < i && steps[j].Outside? && steps[j].key == key && CopiesOwnedBytes(states[j], steps[j])
    && forall l :: j < l < i ==> !Touches(states[l], steps[l], key)
  }

  ghost predicate HoldsOwnedBytes(s: State, key: Key) { key in s.owned && Get(s.env, key) == Some(s.owned[key]) }

  /** Where a key holds its owned bytes though outside code set it last, those bytes are a copy. */
  lemma {:induction false} OutsideOwnedBytesAreACopy(states: seq<State>, steps: seq<Step>, i: nat, key: Key) returns (j: nat)
    requires IsRun(states, steps) && i <= |steps| && HoldsOwnedBytes(states[i], key) && key in states[i].outsideLast
    ensures IsStandingCopy(states, steps, i, key, j)
  {
    assert i > 0;
    var s, step := states[i - 1], steps[i - 1];
    assert Enabled(s, step) && states[i] == Apply(s, step);
    assert key in s.owned && s.owned[key] == states[i].owned[key];
    if step.Outside? && step.key == key {
      j := i - 1;
    } else {
      j := OutsideOwnedBytesAreACopy(states, steps, i - 1, key);
    }
  }

  /** An outside write stays the last one until the launcher sets or deletes the key. */
  lemma {:induction false} OutsideStaysLast(states: seq<State>, steps: seq<Step>, j: nat, i: nat, key: Key)
    requires IsRun(states, steps) && j < i <= |steps| && steps[j].Outside? && steps[j].key == key
    requires forall l :: j < l < i ==> !Touches(states[l], steps[l], key)
    ensures key in states[i].outsideLast
  {
    assert Enabled(states[i - 1], steps[i - 1]) && states[i] == Apply(states[i - 1], steps[i - 1]);
    if j < i - 1 { OutsideStaysLast(states, steps, j, i - 1, key); }
  }

  /** Exactly when ownership is not provenance: a value that the launcher replaces or deletes was set last by outside code if and only
      if outside code copied the owned bytes and the launcher has not touched the key since. */
  lemma ProvenanceFailsIffCopied(states: seq<State>, steps: seq<Step>, i: nat, key: Key)
    requires IsRun(states, steps) && i < |steps| && Touches(states[i], steps[i], key) && key in states[i].env
    ensures key in states[i].outsideLast <==> exists j: nat :: IsStandingCopy(states, steps, i, key, j)
  {
    CaptureHoldsThroughout(states, steps, i);
    assert HoldsOwnedBytes(states[i], key);
    if key in states[i].outsideLast { var j := OutsideOwnedBytesAreACopy(states, steps, i, key); }
    if j: nat :| IsStandingCopy(states, steps, i, key, j) { OutsideStaysLast(states, steps, j, i, key); }
  }

  /** In particular, if no outside write copies owned bytes, the launcher never touches a value that outside code set last. */
  lemma WithoutCopiesOwnershipIsProvenance(states: seq<State>, steps: seq<Step>, i: nat, key: Key)
    requires IsRun(states, steps) && i < |steps| && Touches(states[i], steps[i], key)
    requires forall j :: 0 <= j < i && steps[j].Outside? && steps[j].key == key ==> !CopiesOwnedBytes(states[j], steps[j])
    ensures key !in states[i].env || key !in states[i].outsideLast
  {
    if key in states[i].env { ProvenanceFailsIffCopied(states, steps, i, key); }
  }

  lemma NothingToReconcile(env: Env, owned: Env)
    requires forall key :: key in owned ==> Get(env, key) == Some(owned[key])
    ensures Reconciled(env, owned) == owned
  {
  }

  lemma OneMoreStep(states: seq<State>, steps: seq<Step>, step: Step, next: State)
    requires IsRun(states, steps) && Enabled(states[|steps|], step) && Apply(states[|steps|], step) == next
    ensures IsRun(states + [next], steps + [step])
  {
  }

  const A_ONLY: Env := map[ModelProfile := "a"]
  const BOTH: Env := map[ModelProfile := "a", RuntimeBinding := "b"]

  lemma OwnersKeepAll()
    ensures Reconciled(map[], map[]) == map[] && Reconciled(A_ONLY, A_ONLY) == A_ONLY && Reconciled(BOTH, BOTH) == BOTH
  {
    NothingToReconcile(map[], map[]);
    NothingToReconcile(A_ONLY, A_ONLY);
    NothingToReconcile(BOTH, BOTH);
  }

  /** The capture of an empty environment allows both keys. */
  lemma EmptyCapture()
    ensures var c := CaptureOf(map[], map[]);
            ModelProfile in c.writable && RuntimeBinding in c.writable && c.ownedBefore == {} && c.envBefore == map[]
  {
  }

  lemma AdoptsInTurn(c: Capture)
    requires ModelProfile in c.writable && RuntimeBinding in c.writable && c.ownedBefore == {} && c.envBefore == map[]
    ensures Apply(State(map[], map[], Adopting(c, AfterChild([ModelProfile, RuntimeBinding])), {}), AdoptKey("a"))
            == State(A_ONLY, A_ONLY, Adopting(c, AfterChild([RuntimeBinding])), {})
    ensures Apply(State(A_ONLY, A_ONLY, Adopting(c, AfterChild([RuntimeBinding])), {}), AdoptKey("b"))
            == State(BOTH, BOTH, Adopting(c, AfterChild([])), {})
  {
    OwnersKeepAll();
    assert [ModelProfile, RuntimeBinding][1..] == [RuntimeBinding] && [RuntimeBinding][1..] == [];
  }

  /** A save window that adopts both keys, from an empty environment. */
  lemma SavingBothKeys() returns (states: seq<State>, steps: seq<Step>)
    ensures IsRun(states, steps) && |steps| == 6
    ensures forall j :: 0 <= j < 6 ==> !steps[j].Outside?
    ensures states[6] == State(BOTH, BOTH, NoWindow, {})
  {
    var c := CaptureOf(map[], map[]);
    EmptyCapture();
    OwnersKeepAll();
    AdoptsInTurn(c);
    var both := [ModelProfile, RuntimeBinding];
    states := [State(map[], map[], NoWindow, {}),
               State(map[], map[], Adopting(c, BeforeChild), {}),
               State(map[], map[], Adopting(c, ChildRunning), {}),
               State(map[], map[], Adopting(c, AfterChild(both)), {}),
               State(A_ONLY, A_ONLY, Adopting(c, AfterChild([RuntimeBinding])), {}),
               State(BOTH, BOTH, Adopting(c, AfterChild([])), {}),
               State(BOTH, BOTH, NoWindow, {})];
    steps := [OpenAdopting, StartChild, ChildSucceeds(both), AdoptKey("a"), AdoptKey("b"), Close];
  }

  lemma RemovalVisitsBoth(order: seq<Key>)
    requires order == [RuntimeBinding, ModelProfile]
    ensures |order| == |BOTH| && multiset(order) == multiset(BOTH.Keys)
  {
    assert BOTH.Keys == {ModelProfile, RuntimeBinding};
    assert |BOTH| == |BOTH.Keys|;
  }

  /** From a saved state: outside code copies the owned bytes, and a removal window reaches the key. */
  lemma RemovalAfterCopy(saved: seq<State>, saving: seq<Step>) returns (states: seq<State>, steps: seq<Step>)
    requires IsRun(saved, saving) && |saving| == 6 && saved[6] == State(BOTH, BOTH, NoWindow, {})
    ensures IsRun(states, steps) && |steps| == 10
    ensures states[6] == saved[6] && steps[6] == Outside(RuntimeBinding, Some("b"))
    ensures states[10] == State(BOTH, BOTH, Removing(AfterChild([RuntimeBinding, ModelProfile])), {RuntimeBinding})
  {
    var order := [RuntimeBinding, ModelProfile];
    OwnersKeepAll();
    RemovalVisitsBoth(order);
    var idle := State(BOTH, BOTH, NoWindow, {RuntimeBinding});
    OneMoreStep(saved, saving, Outside(RuntimeBinding, Some("b")), idle);
    states, steps := saved + [idle], saving + [Outside(RuntimeBinding, Some("b"))];
    OneMoreStep(states, steps, OpenRemoving, idle.(window := Removing(BeforeChild)));
    states, steps := states + [idle.(window := Removing(BeforeChild))], steps + [OpenRemoving];
    OneMoreStep(states, steps, StartChild, idle.(window := Removing(ChildRunning)));
    states, steps := states + [idle.(window := Removing(ChildRunning))], steps + [StartChild];
    OneMoreStep(states, steps, ChildSucceeds(order), idle.(window := Removing(AfterChild(order))));
    states, steps := states + [idle.(window := Removing(AfterChild(order)))], steps + [ChildSucceeds(order)];
  }

  /** One copied value is enough: a later removal then deletes what outside code set last. */
  lemma CopiedBytesAreDeleted() returns (states: seq<State>, steps: seq<Step>)
    ensures IsRun(states, steps) && |steps| == 11
    ensures CopiesOwnedBytes(states[6], steps[6])
    ensures Touches(states[10], steps[10], RuntimeBinding)
    ensures RuntimeBinding in states[10].env && RuntimeBinding in states[10].outsideLast
  {
    var saved, saving := SavingBothKeys();
    states, steps := RemovalAfterCopy(saved, saving);
    var s := states[10];
    OneMoreStep(states, steps, ClearKey, Apply(s, ClearKey));
    states, steps := states + [Apply(s, ClearKey)], steps + [ClearKey];
  }
}
