/**
 What a window of the launcher achieves: when exactly a visited key is rewritten, that nothing is
 written before the child has run and succeeded, and that a window which is left alone writes, or
 clears, all the keys it should.
 */
module IntentProgress {
  import opened Wrappers
  import opened IntentOwnership

  /** The window that opens at step `i` is still open in state `n`. */
  ghost predicate IsOpenSince(states: seq<State>, steps: seq<Step>, i: nat, n: nat)
    requires IsRun(states, steps)
  {
    && i < n < |states| && (steps[i].OpenAdopting? || steps[i].OpenRemoving?)
    && forall k :: i < k <= n ==> !states[k].window.NoWindow?
  }

  /** No outside write to the key from step `i` up to step `n`. */
  ghost predicate IsLeftAlone(steps: seq<Step>, i: nat, n: nat, key: Key)
    requires i <= n <= |steps|
  {
    forall k :: i <= k < n ==> !(steps[k].Outside? && steps[k].key == key)
  }

  /** The bytes the launcher owns stand in the environment. */
  ghost predicate StillOwns(s: State, key: Key) { key in s.env && key in s.owned && s.owned[key] == s.env[key] }

  // ---- when a visited key is rewritten

  lemma {:induction false} CaptureStays(states: seq<State>, steps: seq<Step>, i: nat, n: nat)
    requires IsRun(states, steps) && IsOpenSince(states, steps, i, n) && steps[i].OpenAdopting?
    ensures states[n].window.Adopting?
    ensures var c, s := states[n].window.capture, states[i];
            && c.envBefore == s.env
            && (forall key :: key in c.ownedBefore <==> StillOwns(s, key))
            && (forall key :: key in c.writable <==> key !in s.env || StillOwns(s, key))
  {
    assert Enabled(states[n - 1], steps[n - 1]) && states[n] == Apply(states[n - 1], steps[n - 1]);
    if i + 1 < n {
      CaptureStays(states, steps, i, n - 1);
    } else {
      KeysAtOpening(states[i]);
    }
  }

  lemma KeysAtOpening(s: State)
    ensures var c := CaptureOf(s.env, s.owned);
            && (forall key :: key in c.ownedBefore <==> StillOwns(s, key))
            && (forall key :: key in c.writable <==> key !in s.env || StillOwns(s, key))
  {
    forall key: Key ensures key in Reconciled(s.env, s.owned) <==> StillOwns(s, key) {}
    var c := CaptureOf(s.env, s.owned);
    forall key: Key ensures key in c.writable <==> key !in s.env || StillOwns(s, key) {}
  }

  /** The key stands as it did when the window opened: absent both times, or with the same bytes and owned both times. */
  ghost predicate StandsAsAtOpening(s: State, t: State, key: Key) {
    if key in s.env then key in t.env && t.env[key] == s.env[key] && StillOwns(s, key) && StillOwns(t, key)
    else key !in t.env
  }

  ghost predicate HoldsWritten(t: State, key: Key, bytes: string) {
    && key in t.owned && t.owned[key] == bytes
    && (if bytes == "" then key !in t.env else key in t.env && t.env[key] == bytes)
  }

  /** Exactly when a save rewrites the key it visits, in any interleaving; otherwise the key keeps its value and is owned only if it was. */
  lemma SaveRewritesIff(states: seq<State>, steps: seq<Step>, i: nat, n: nat, key: Key)
    requires IsRun(states, steps) && IsOpenSince(states, steps, i, n) && n < |steps| && steps[i].OpenAdopting?
    requires steps[n].AdoptKey? && Enabled(states[n], steps[n]) && states[n].window.phase.todo[0] == key
    ensures if StandsAsAtOpening(states[i], states[n], key) then HoldsWritten(states[n + 1], key, steps[n].bytes)
            else && states[n + 1].env == states[n].env
                 && states[n + 1].owned.Items <= states[n].owned.Items && (key in states[n + 1].owned <==> StillOwns(states[n], key))
  {
    CaptureStays(states, steps, i, n);
    assert states[n + 1] == Apply(states[n], steps[n]);
    var kept := Reconciled(states[n].env, states[n].owned);
    assert key in kept <==> StillOwns(states[n], key);
    assert MayAdopt(states[n].window.capture, states[n].env, kept, key) <==> StandsAsAtOpening(states[i], states[n], key);
  }

  // ---- nothing is written before the child has run and succeeded

  ghost predicate IsRunningChild(s: State) { !s.window.NoWindow? && s.window.phase.ChildRunning? }

  ghost predicate IsAfterChild(s: State) { !s.window.NoWindow? && s.window.phase.AfterChild? }

  lemma PhasesFollow(s: State, step: Step)
    requires Enabled(s, step)
    ensures IsRunningChild(Apply(s, step)) ==> step.StartChild? || IsRunningChild(s)
    ensures IsAfterChild(Apply(s, step)) ==> (step.ChildSucceeds? && IsRunningChild(s)) || IsAfterChild(s)
  {
  }

  /** The window stays open after step `j` up to state `n`. */
  ghost predicate StaysOpen(states: seq<State>, j: nat, n: nat)
    requires n < |states|
  {
    forall l :: j < l <= n ==> !states[l].window.NoWindow?
  }

  lemma {:induction false} ChildWasStarted(states: seq<State>, steps: seq<Step>, n: nat) returns (j: nat)
    requires IsRun(states, steps) && n < |states| && IsRunningChild(states[n])
    ensures j < n && steps[j].StartChild? && StaysOpen(states, j, n)
  {
    assert n > 0 && Enabled(states[n - 1], steps[n - 1]) && states[n] == Apply(states[n - 1], steps[n - 1]);
    PhasesFollow(states[n - 1], steps[n - 1]);
    j := n - 1;
    if !steps[j].StartChild? { j := ChildWasStarted(states, steps, n - 1); }
  }

  lemma {:induction false} ChildHasSucceeded(states: seq<State>, steps: seq<Step>, n: nat) returns (k: nat)
    requires IsRun(states, steps) && n < |states| && IsAfterChild(states[n])
    ensures k < n && steps[k].ChildSucceeds? && IsRunningChild(states[k]) && StaysOpen(states, k, n)
  {
    assert n > 0 && Enabled(states[n - 1], steps[n - 1]) && states[n] == Apply(states[n - 1], steps[n - 1]);
    PhasesFollow(states[n - 1], steps[n - 1]);
    k := n - 1;
    if IsAfterChild(states[k]) { k := ChildHasSucceeded(states, steps, n - 1); }
  }

  /** Whatever the launcher sets or deletes, the child of that window was started and has succeeded before. */
  lemma TouchesFollowTheChild(states: seq<State>, steps: seq<Step>, n: nat, key: Key)
    requires IsRun(states, steps) && n < |steps| && Touches(states[n], steps[n], key)
    ensures exists j: nat, k :: j < k < n && steps[j].StartChild? && steps[k].ChildSucceeds? && StaysOpen(states, j, n)
  {
    var k := ChildHasSucceeded(states, steps, n);
    var j := ChildWasStarted(states, steps, k);
  }

  /** The owned keys in some order. */
  lemma SomeOrder(owned: Env) returns (order: seq<Key>)
    ensures |order| == |owned| && multiset(order) == multiset(owned.Keys)
  {
    order := (if ModelProfile in owned then [ModelProfile] else []) + (if RuntimeBinding in owned then [RuntimeBinding] else []);
    forall key | key in owned ensures key.ModelProfile? || key.RuntimeBinding? {}
    assert owned.Keys == (if ModelProfile in owned then {ModelProfile} else {}) + (if RuntimeBinding in owned then {RuntimeBinding} else {});
    assert |owned| == |owned.Keys|;
  }

  /** No window gets stuck: before its end a child can be started and can fail, a running one can succeed, and after that the
      remaining keys can be visited one by one up to the close. */
  lemma WindowsGoOn(s: State)
    ensures s.window.NoWindow? ==> Enabled(s, OpenAdopting) && Enabled(s, OpenRemoving) && Enabled(s, SpawnHelper)
    ensures !s.window.NoWindow? && s.window.phase.BeforeChild? ==> Enabled(s, StartChild) && Enabled(s, ChildFails)
    ensures IsRunningChild(s) ==> Enabled(s, ChildFails) && exists order :: Enabled(s, ChildSucceeds(order))
    ensures IsAfterChild(s) && s.window.phase.todo != [] ==>
              if s.window.Adopting? then forall bytes :: Enabled(s, AdoptKey(bytes)) else Enabled(s, ClearKey)
    ensures IsAfterChild(s) && s.window.phase.todo == [] ==> Enabled(s, Close)
    ensures IsAfterChild(s) ==> !Enabled(s, ChildFails)
  {
    if IsRunningChild(s) {
      var order := SomeOrder(s.owned);
      assert Enabled(s, ChildSucceeds(if s.window.Removing? then order else [ModelProfile, RuntimeBinding]));
    }
  }

  /** A key is visited once: each visit, whatever it does, leaves the later keys to visit. */
  lemma VisitsMoveOn(s: State, step: Step)
    requires Enabled(s, step) && (step.AdoptKey? || step.ClearKey?)
    ensures var t := Apply(s, step);
            && IsAfterChild(t) && s.window.phase.todo == [s.window.phase.todo[0]] + t.window.phase.todo
            && (s.window.Adopting? ==> t.window.Adopting? && t.window.capture == s.window.capture)
            && (s.window.Removing? ==> t.window.Removing?)
  {
  }

  // ---- a window that is left alone

  /** What the window captured at its opening in state `s`. */
  ghost predicate CapturedFrom(s: State, t: State) {
    && t.window.Adopting? && t.window.capture.envBefore == s.env
    && (forall key :: key in t.window.capture.ownedBefore <==> StillOwns(s, key))
    && (forall key :: key in t.window.capture.writable <==> key !in s.env || StillOwns(s, key))
  }

  ghost predicate IsToBeVisited(opening: State, t: State, key: Key) {
    && StandsAsAtOpening(opening, t, key) && t.window.Adopting?
    && (t.window.phase.AfterChild? ==> key in t.window.phase.todo)
  }

  lemma AdoptsTheVisited(opening: State, s: State, step: Step, key: Key)
    requires Enabled(s, step) && CapturedFrom(opening, s) && IsToBeVisited(opening, s, key) && step.AdoptKey?
    ensures if s.window.phase.todo[0] == key then Touches(s, step, key) else IsToBeVisited(opening, Apply(s, step), key)
  {
    assert key in Reconciled(s.env, s.owned) <==> StillOwns(s, key);
  }

  lemma StaysToBeVisited(opening: State, s: State, step: Step, key: Key)
    requires Enabled(s, step) && IsToBeVisited(opening, s, key) && !step.AdoptKey?
    requires !(step.Outside? && step.key == key) && !Apply(s, step).window.NoWindow?
    ensures IsToBeVisited(opening, Apply(s, step), key)
  {
    assert key in Reconciled(s.env, s.owned) <==> StillOwns(s, key);
    if step.ChildSucceeds? { assert step.order[0] == ModelProfile && step.order[1] == RuntimeBinding; }
  }

  lemma ToBeVisitedAtOpening(s: State, key: Key)
    requires Enabled(s, OpenAdopting) && (key !in s.env || StillOwns(s, key))
    ensures IsToBeVisited(s, Apply(s, OpenAdopting), key)
  {
    assert key in Reconciled(s.env, s.owned) <==> StillOwns(s, key);
  }

  /** At step `m` of the window the launcher wrote the key. */
  ghost predicate WroteAt(states: seq<State>, steps: seq<Step>, i: nat, n: nat, m: nat, key: Key)
    requires IsRun(states, steps)
  {
    i < m < n <= |steps| && steps[m].AdoptKey? && LauncherWrote(states, steps, m, key, steps[m].bytes)
  }

  /** Between opening and the visit nothing but the launcher acts on the key. */
  lemma {:induction false} UnvisitedStands(states: seq<State>, steps: seq<Step>, i: nat, n: nat, key: Key) returns (m: nat)
    requires IsRun(states, steps) && IsOpenSince(states, steps, i, n) && steps[i].OpenAdopting?
    requires IsLeftAlone(steps, i, n, key) && (key !in states[i].env || StillOwns(states[i], key))
    ensures IsToBeVisited(states[i], states[n], key) || WroteAt(states, steps, i, n, m, key)
  {
    m := n - 1;
    assert Enabled(states[m], steps[m]) && states[n] == Apply(states[m], steps[m]);
    if i < m {
      var k := UnvisitedStands(states, steps, i, m, key);
      if IsToBeVisited(states[i], states[m], key) {
        CaptureStays(states, steps, i, m);
        if steps[m].AdoptKey? {
          AdoptsTheVisited(states[i], states[m], steps[m], key);
        } else {
          StaysToBeVisited(states[i], states[m], steps[m], key);
        }
      } else {
        m := k;
      }
    } else {
      ToBeVisitedAtOpening(states[i], key);
    }
  }

  /** A save that is left alone writes every key that was absent, or owned and unchanged, when it opened. */
  lemma FinishedSaveWroteEveryKey(states: seq<State>, steps: seq<Step>, i: nat, n: nat, key: Key)
    requires IsRun(states, steps) && IsOpenSince(states, steps, i, n) && steps[i].OpenAdopting?
    requires states[n].window.phase == AfterChild([])
    requires IsLeftAlone(steps, i, n, key) && (key !in states[i].env || StillOwns(states[i], key))
    ensures exists m :: WroteAt(states, steps, i, n, m, key)
  {
    var m := UnvisitedStands(states, steps, i, n, key);
  }

  /** From the child's success to the end a removal deletes the owned bytes that still stand. */
  lemma {:induction false} ToBeCleared(states: seq<State>, steps: seq<Step>, k: nat, n: nat, key: Key)
    requires IsRun(states, steps) && k < n < |states| && steps[k].ChildSucceeds? && states[k].window.Removing?
    requires StaysOpen(states, k, n)
    requires IsLeftAlone(steps, k, n, key) && StillOwns(states[k], key)
    ensures states[n].window.Removing? && states[n].window.phase.AfterChild? && states[n].owned == states[k].owned
    ensures (key in states[n].window.phase.todo && StillOwns(states[n], key)) || key !in states[n].env
  {
    var s, step, t := states[n - 1], steps[n - 1], states[n];
    assert Enabled(s, step) && t == Apply(s, step);
    if k + 1 < n {
      ToBeCleared(states, steps, k, n - 1, key);
    } else {
      VisitsAllOwned(s, step, key);
    }
  }

  lemma VisitsAllOwned(s: State, step: Step, key: Key)
    requires Enabled(s, step) && step.ChildSucceeds? && s.window.Removing? && key in s.owned
    ensures key in step.order
  {
    assert key in multiset(s.owned.Keys);
    assert key in multiset(step.order);
  }

  /** A removal that is left alone has deleted every owned key when it closes, and owns nothing. */
  lemma ClosedRemovalDeletedTheOwned(states: seq<State>, steps: seq<Step>, k: nat, n: nat, key: Key)
    requires IsRun(states, steps) && k < n < |steps| && steps[k].ChildSucceeds? && states[k].window.Removing?
    requires StaysOpen(states, k, n) && steps[n].Close?
    requires IsLeftAlone(steps, k, n, key) && StillOwns(states[k], key)
    ensures key !in states[n + 1].env && states[n + 1].owned == map[]
  {
    ToBeCleared(states, steps, k, n, key);
    assert Enabled(states[n], steps[n]) && states[n + 1] == Apply(states[n], steps[n]);
  }
}
