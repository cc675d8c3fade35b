/**
 * When the module's hooks run, on every run: what the result of an open hook means, who gets to a
 * hook at all, and that a release counts only when its hook starts.
 */
module RundownHooks {
  import opened Wrappers
  import opened Rundown
  import opened RundownInvariant
  import opened RundownEffects
  import opened RundownTheorems

  // What a step of thread u may do to file f: only with a claim on it, and never to Opening; and
  // only at the start of its release hook is a release counted.
  ghost predicate FileEffect(s: State, z: State, u: Tid, f: File)
    requires u < |s.threads|
  {
    && (z.releases[f] != s.releases[f] ==> StartsRelease(s, z, u, f))
    && (EntersRelease(s, z, u, f) ==> z.releases[f] == s.releases[f] + 1)
    && (f in s.files ==> FileMove(s, z, u, f))
  }

  /** The release hook of f is counted once more, and thread u is in it. */
  predicate StartsRelease(s: State, z: State, u: Tid, f: File) {
    z.releases[f] == s.releases[f] + 1
    && u < |z.threads| && (z.threads[u] == Release(f, ByClose) || z.threads[u] == Release(f, ByRundown))
  }

  predicate EntersRelease(s: State, z: State, u: Tid, f: File)
    requires u < |s.threads|
  {
    !s.threads[u].Release? && u < |z.threads| && z.threads[u].Release? && z.threads[u].file == f
  }

  ghost predicate FileMove(s: State, z: State, u: Tid, f: File)
    requires u < |s.threads| && f in s.files
  {
      && f in z.files
      && (z.files[f] == s.files[f] || z.files[f] == Open || z.files[f] == Closed)
      && (!HasClaim(s.threads[u], u, f) ==> z.files[f] == s.files[f] && (f in z.recorded <==> f in s.recorded))
  }

  lemma ReadFile(s: State, u: Tid, hookOk: bool, f: File)
    requires u < |s.threads|
    requires s.threads[u].ReadUse? || s.threads[u].ReadHook? || s.threads[u].ReadUnuse?
    ensures FileEffect(s, StepThread(s, u, hookOk), u, f)
  {
  }

  lemma SignalFile(s: State, u: Tid, hookOk: bool, f: File)
    requires u < |s.threads| && s.threads[u].Signal?
    ensures FileEffect(s, StepThread(s, u, hookOk), u, f)
  {
  }

  lemma OpenFile(s: State, u: Tid, hookOk: bool, f: File)
    requires u < |s.threads| && InOpen(s.threads[u])
    ensures FileEffect(s, StepThread(s, u, hookOk), u, f)
  {
  }

  /** close_pdeo up to its unlock. */
  lemma EnterFile(s: State, u: Tid, g: File, side: By, f: File)
    requires u < |s.threads| && (s.threads[u] == CloseFind(g) || s.threads[u] == RunLoop)
    ensures FileEffect(s, ClosePdeo(s, u, g, side), u, f)
  {
  }

  lemma CloseFile(s: State, u: Tid, hookOk: bool, f: File)
    requires u < |s.threads| && (s.threads[u].CloseLock? || s.threads[u].CloseFind? || s.threads[u].CloseUnlock?)
    ensures FileEffect(s, StepThread(s, u, hookOk), u, f)
  {
    if s.threads[u].CloseFind? { EnterFile(s, u, s.threads[u].file, ByClose, f); }
  }

  lemma FinishFile(s: State, u: Tid, g: File, side: By, f: File)
    requires u < |s.threads| && s.threads[u] == Finish(g, side)
    ensures FileEffect(s, FinishRelease(s, u, g, side), u, f)
  {
  }

  lemma PdeoFile(s: State, u: Tid, hookOk: bool, f: File)
    requires u < |s.threads| && InClosePdeo(s.threads[u])
    ensures FileEffect(s, StepThread(s, u, hookOk), u, f)
  {
    var pc := s.threads[u];
    if pc.Finish? { FinishFile(s, u, pc.file, pc.side, f); }
  }

  lemma RunFile(s: State, u: Tid, hookOk: bool, f: File)
    requires u < |s.threads| && InRundown(s.threads[u]) && !InClosePdeo(s.threads[u])
    ensures FileEffect(s, StepThread(s, u, hookOk), u, f)
  {
    if s.threads[u].RunLoop? && s.pde.openers != [] { EnterFile(s, u, s.pde.openers[0], ByRundown, f); }
  }

  lemma StepFile(s: State, u: Tid, hookOk: bool, f: File)
    requires CanStep(s, u)
    ensures FileEffect(s, StepThread(s, u, hookOk), u, f)
  {
    var pc := s.threads[u];
    if InClosePdeo(pc) { PdeoFile(s, u, hookOk, f); }
    else if InRundown(pc) { RunFile(s, u, hookOk, f); }
    else if InOpen(pc) { OpenFile(s, u, hookOk, f); }
    else if pc.CloseLock? || pc.CloseFind? || pc.CloseUnlock? { CloseFile(s, u, hookOk, f); }
    else if pc.Signal? { SignalFile(s, u, hookOk, f); }
    else { ReadFile(s, u, hookOk, f); }
  }

  // Nobody but thread t can change anything about f.
  ghost predicate Reserved(s: State, t: Tid, f: File) {
    f in s.files && (s.files[f] == Opening(t) || s.files[f] == Closed)
  }

  lemma Elsewhere(s: State, a: Action, t: Tid, f: File)
    requires Inv(s) && Enabled(s, a) && Reserved(s, t, f) && (s.files[f] == Closed || a.tid != t)
    ensures var z := Next(s, a);
      && f in z.files && z.files[f] == s.files[f] && (f in z.recorded <==> f in s.recorded)
      && |z.threads| == |s.threads| && (t < |s.threads| && a.tid != t ==> z.threads[t] == s.threads[t])
  {
    Known(s, a.tid, f);
    if a.Step? {
      StepFile(s, a.tid, a.hookOk, f);
      StepEffect(s, a.tid, a.hookOk);
    }
  }

  // ---------- the hook failed ----------

  /** The call of thread t on f is to fail, or has failed; f has not been recorded. */
  ghost predicate Failing(s: State, t: Tid, f: File) {
    && Reserved(s, t, f) && f !in s.recorded && t < |s.threads|
    && (s.files[f] == Opening(t) ==>
          s.threads[t] == OpenUnuse(f, false) || s.threads[t] == Signal(f, AfterOpen(false)))
  }

  lemma FailingStep(s: State, t: Tid, hookOk: bool, f: File)
    requires Inv(s) && CanStep(s, t) && Failing(s, t, f) && s.files[f] == Opening(t)
    ensures Failing(StepThread(s, t, hookOk), t, f)
  {
    Known(s, t, f);
  }

  lemma FailingStays(s: State, a: Action, t: Tid, f: File)
    requires Inv(s) && Enabled(s, a) && Failing(s, t, f)
    ensures Failing(Next(s, a), t, f)
  {
    if s.files[f] == Closed || a.tid != t {
      Elsewhere(s, a, t, f);
    } else {
      FailingStep(s, t, a.hookOk, f);
    }
  }

  // Thread t hears from the open hook of f between states i and i + 1.
  ghost predicate Hooked(states: seq<State>, acts: seq<Action>, i: nat, t: Tid, f: File, ok: bool) {
    && Run(states, acts) && i < |acts| && acts[i] == Step(t, ok)
    && t < |states[i].threads| && states[i].threads[t] == OpenHook(f)
  }

  lemma HookFailed(s: State, t: Tid, f: File)
    requires Inv(s) && t < |s.threads| && s.threads[t] == OpenHook(f) && s.pde.hasOpen
    ensures Failing(StepThread(s, t, false), t, f)
  {
    Known(s, t, f);
  }

  lemma FailingStart(states: seq<State>, acts: seq<Action>, i: nat, t: Tid, f: File)
    requires Hooked(states, acts, i, t, f, false) && states[i].pde.hasOpen
    ensures Failing(states[i + 1], t, f)
  {
    RunInv(states, acts, i);
    assert Went(states, acts, i);
    HookFailed(states[i], t, f);
  }

  lemma FailingOn(states: seq<State>, acts: seq<Action>, k: nat, t: Tid, f: File)
    requires Run(states, acts) && k < |acts| && Failing(states[k], t, f)
    ensures Failing(states[k + 1], t, f)
  {
    RunInv(states, acts, k);
    assert Went(states, acts, k);
    FailingStays(states[k], acts[k], t, f);
  }

  lemma {:induction false} FailingLater(states: seq<State>, acts: seq<Action>, i: nat, j: nat, t: Tid, f: File)
    requires Run(states, acts) && i <= j < |states| && Failing(states[i], t, f)
    ensures Failing(states[j], t, f)
  {
    if i < j {
      FailingLater(states, acts, i, j - 1, t, f);
      FailingOn(states, acts, j - 1, t, f);
    }
  }

  /**
   * If the module's open hook fails, the file is never open: it is not recorded, and its release
   * hook never runs.
   */
  lemma OpenFails(states: seq<State>, acts: seq<Action>, i: nat, j: nat, t: Tid, f: File)
    requires Hooked(states, acts, i, t, f, false) && states[i].pde.hasOpen && i < j < |states|
    ensures f !in states[j].recorded && states[j].releases[f] == 0
    ensures f in states[j].files && states[j].files[f] != Open
  {
    FailingStart(states, acts, i, t, f);
    FailingLater(states, acts, i + 1, j, t, f);
    RunInv(states, acts, j);
    Known(states[j], t, f);
  }

  // ---------- the hook succeeded ----------

  /** While the call of thread t on f lasts it is on its way to success. */
  ghost predicate Succeeding(s: State, t: Tid, f: File) {
    && f in s.files && t < |s.threads|
    && (s.files[f] == Opening(t) ==>
          s.threads[t] == OpenLock(f) || s.threads[t] == OpenAdd(f)
          || s.threads[t] == OpenUnuse(f, true) || s.threads[t] == Signal(f, AfterOpen(true)))
  }

  lemma NeverOpening(s: State, a: Action, t: Tid, f: File)
    requires Inv(s) && Enabled(s, a) && f in s.files && s.files[f] != Opening(t)
    ensures f in Next(s, a).files && Next(s, a).files[f] != Opening(t)
    ensures |Next(s, a).threads| == |s.threads|
  {
    Known(s, a.tid, f);
    if a.Step? {
      StepFile(s, a.tid, a.hookOk, f);
      StepEffect(s, a.tid, a.hookOk);
    }
  }

  lemma SucceedingStep(s: State, t: Tid, hookOk: bool, f: File)
    requires Inv(s) && CanStep(s, t) && Succeeding(s, t, f) && s.files[f] == Opening(t)
    ensures var z := StepThread(s, t, hookOk);
      Succeeding(z, t, f) && (z.threads[t].Idle? ==> z.files[f] == Open && (f in z.recorded <==> z.pde.hasRelease))
  {
    Known(s, t, f);
  }

  lemma SucceedingStays(s: State, a: Action, t: Tid, f: File)
    requires Inv(s) && Enabled(s, a) && Succeeding(s, t, f)
    ensures Succeeding(Next(s, a), t, f)
  {
    if s.files[f] != Opening(t) {
      NeverOpening(s, a, t, f);
    } else if a.tid != t {
      Elsewhere(s, a, t, f);
    } else {
      Known(s, t, f);
      SucceedingStep(s, t, a.hookOk, f);
    }
  }

  lemma HookSucceeded(s: State, t: Tid, f: File, ok: bool)
    requires Inv(s) && t < |s.threads| && s.threads[t] == OpenHook(f) && (ok || !s.pde.hasOpen)
    ensures Succeeding(StepThread(s, t, ok), t, f)
  {
    Known(s, t, f);
  }

  lemma SucceedingStart(states: seq<State>, acts: seq<Action>, i: nat, t: Tid, f: File, ok: bool)
    requires Hooked(states, acts, i, t, f, ok) && (ok || !states[i].pde.hasOpen)
    ensures Succeeding(states[i + 1], t, f)
  {
    RunInv(states, acts, i);
    assert Went(states, acts, i);
    HookSucceeded(states[i], t, f, ok);
  }

  lemma SucceedingOn(states: seq<State>, acts: seq<Action>, k: nat, t: Tid, f: File)
    requires Run(states, acts) && k < |acts| && Succeeding(states[k], t, f)
    ensures Succeeding(states[k + 1], t, f)
  {
    RunInv(states, acts, k);
    assert Went(states, acts, k);
    SucceedingStays(states[k], acts[k], t, f);
  }

  lemma {:induction false} SucceedingLater(states: seq<State>, acts: seq<Action>, i: nat, j: nat, t: Tid, f: File)
    requires Run(states, acts) && i <= j < |states| && Succeeding(states[i], t, f)
    ensures Succeeding(states[j], t, f)
  {
    if i < j {
      SucceedingLater(states, acts, i, j - 1, t, f);
      SucceedingOn(states, acts, j - 1, t, f);
    }
  }

  // The call of thread t on f returns between states j and j + 1.
  ghost predicate Returns(states: seq<State>, acts: seq<Action>, j: nat, t: Tid, f: File) {
    && Run(states, acts) && j < |acts| && acts[j].tid == t < |states[j].threads|
    && f in states[j].files && states[j].files[f] == Opening(t)
    && t < |states[j + 1].threads| && states[j + 1].threads[t].Idle?
  }

  /**
   * If the open hook succeeds, or there is none, the call returns with the file open, and
   * recorded if and only if there is a release hook.
   */
  lemma OpenSucceeds(states: seq<State>, acts: seq<Action>, i: nat, j: nat, t: Tid, f: File, ok: bool)
    requires Hooked(states, acts, i, t, f, ok) && (ok || !states[i].pde.hasOpen)
    requires i < j && Returns(states, acts, j, t, f)
    ensures f in states[j + 1].files && states[j + 1].files[f] == Open
    ensures f in states[j + 1].recorded <==> states[j + 1].pde.hasRelease
  {
    SucceedingStart(states, acts, i, t, f, ok);
    SucceedingLater(states, acts, i + 1, j, t, f);
    RunInv(states, acts, j);
    assert Went(states, acts, j);
    SucceedingStep(states[j], t, acts[j].hookOk, f);
  }

  // ---------- getting in ----------

  /**
   * A read or an open gets to the module's hook if and only if BIAS has not been added when it
   * raises in_use; otherwise it returns at once, and the file of an open stays closed.
   */
  lemma GetsIn(states: seq<State>, acts: seq<Action>, i: nat, t: Tid, f: File)
    requires Run(states, acts) && i < |acts| && acts[i].Step? && acts[i].tid == t < |states[i].threads|
    requires states[i].threads[t] == ReadUse(f) || states[i].threads[t] == OpenUse(f)
    ensures t < |states[i + 1].threads|
    ensures var pc, next := states[i].threads[t], states[i + 1].threads[t];
      && (!Biased(states[i]) <==> next == if pc.ReadUse? then ReadHook(f) else OpenHook(f))
      && (Biased(states[i]) <==> next == Idle)
    ensures Biased(states[i]) && states[i].threads[t].OpenUse? ==>
      f in states[i + 1].files && states[i + 1].files[f] == Closed && f !in states[i + 1].recorded
  {
    RunInv(states, acts, i);
    assert Went(states, acts, i);
    Known(states[i], t, f);
    NoWrap(states[i], t);
  }

  // ---------- release ----------

  /** A release is counted when a thread starts the release hook of the file, and only then. */
  lemma ReleaseIsHook(states: seq<State>, acts: seq<Action>, i: nat, f: File)
    requires Run(states, acts) && i < |acts| && acts[i].tid < |states[i].threads|
    ensures states[i + 1].releases[f] != states[i].releases[f]
            <==> EntersRelease(states[i], states[i + 1], acts[i].tid, f)
    ensures EntersRelease(states[i], states[i + 1], acts[i].tid, f) ==>
      states[i + 1].releases[f] == states[i].releases[f] + 1
  {
    assert Went(states, acts, i);
    var s, t := states[i], acts[i].tid;
    if acts[i].Step? {
      StepFile(s, t, acts[i].hookOk, f);
      if s.threads[t].Release? { ReleaseLeaves(s, t, acts[i].hookOk); }
    }
  }

  /** The step out of a release hook counts nothing. */
  lemma ReleaseLeaves(s: State, t: Tid, hookOk: bool)
    requires CanStep(s, t) && s.threads[t].Release?
    ensures StepThread(s, t, hookOk).releases == s.releases
  {
  }
}
