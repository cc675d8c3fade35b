/**
 * What the rundown protocol guarantees on every run: every interleaving of any number of
 * threads (fewer than 2^31) from a fresh entry.
 */
module RundownTheorems {
  import opened Wrappers
  import opened Rundown
  import opened RundownInvariant
  import RundownSteps
  import opened RundownEffects

  ghost predicate Run(states: seq<State>, acts: seq<Action>) {
    && |states| == |acts| + 1
    && Init(states[0])
    && forall i :: 0 <= i < |acts| ==> Went(states, acts, i)
  }

  ghost predicate Went(states: seq<State>, acts: seq<Action>, i: nat)
    requires |states| == |acts| + 1 && i < |acts|
  {
    Enabled(states[i], acts[i]) && states[i + 1] == Next(states[i], acts[i])
  }

  lemma {:induction false} RunInv(states: seq<State>, acts: seq<Action>, i: nat)
    requires Run(states, acts) && i < |states|
    ensures Inv(states[i])
  {
    if i == 0 {
      InitInv(states[0]);
    } else {
      RunInv(states, acts, i - 1);
      assert Went(states, acts, i - 1);
      RundownSteps.NextInv(states[i - 1], acts[i - 1]);
    }
  }

  /** No free record is touched, no dead stack is signalled, and in_use counts the callers inside. */
  lemma NoFault(states: seq<State>, acts: seq<Action>, i: nat)
    requires Run(states, acts) && i < |states|
    ensures !states[i].fault
    ensures states[i].pde.inUse == (if Biased(states[i]) then BIAS else 0) + Actives(states[i])
    ensures -0x8000_0000 <= states[i].pde.inUse < 0x8000_0000
  {
    RunInv(states, acts, i);
    Known(states[i], 0, 0);
    SumAtMost(states[i].threads, ActiveWeight);
  }

  // ---------- after the rundown ----------

  lemma NoneActive(s: State)
    requires Actives(s) == 0
    ensures forall t :: 0 <= t < |s.threads| ==> !Active(s.threads[t])
  {
    SumPositive(s.threads, ActiveWeight);
    forall t | 0 <= t < |s.threads| ensures !Active(s.threads[t]) {
      assert ActiveWeight(s.threads[t]) == 0;
    }
  }

  lemma ReturnedIsQuiet(s: State, t: Tid)
    requires Inv(s) && s.phase == Returned && t < |s.threads|
    ensures !InHook(s.threads[t]) && s.pde.inUse == BIAS
  {
    Known(s, t, 0);
    NoneActive(s);
  }

  // What no action takes back once it holds.
  ghost predicate Later(s: State, s': State) {
    && |s'.threads| == |s.threads|
    && (s.phase == Returned ==> s'.phase == Returned)
    && (Biased(s) ==> Biased(s'))
    && (Drained(s) ==> Drained(s'))
    && s.recorded <= s'.recorded
    && s'.pde.hasRelease == s.pde.hasRelease
  }

  lemma StepIsLater(s: State, s': State, t: Tid)
    requires PhaseInv(s) && Effect(s, s', t) && ThreadInv(s, t)
    ensures Later(s, s')
  {
    if s.phase.Running? && s.phase.tid != t { assert s'.threads[s.phase.tid] == s.threads[s.phase.tid]; }
  }

  lemma StartIsLater(s: State, a: Action)
    requires Enabled(s, a) && !a.Step? && PhaseInv(s)
    ensures Later(s, Next(s, a))
  {
  }

  lemma PhaseStable(s: State, a: Action)
    requires Inv(s) && Enabled(s, a)
    ensures Later(s, Next(s, a))
  {
    Known(s, a.tid, 0);
    if a.Step? {
      StepEffect(s, a.tid, a.hookOk);
      StepIsLater(s, Next(s, a), a.tid);
    } else {
      StartIsLater(s, a);
    }
  }

  lemma NoEntry(s: State, a: Action)
    requires Inv(s) && Enabled(s, a) && Biased(s)
    ensures Actives(Next(s, a)) <= Actives(s)
  {
    Known(s, a.tid, 0);
    if a.Step? { StepEffect(s, a.tid, a.hookOk); }
    NoWrap(s, a.tid);
    SumUpdate(s.threads, a.tid, Next(s, a).threads[a.tid], ActiveWeight);
  }

  lemma NoOpenerAdded(s: State, a: Action, f: File)
    requires Inv(s) && Enabled(s, a) && Drained(s) && f in Next(s, a).pde.openers
    ensures f in s.pde.openers
  {
    Known(s, a.tid, 0);
    NoneActive(s);
    if a.Step? { StepEffect(s, a.tid, a.hookOk); }
  }

  /** What one action of a run does to the opener list and to the callers inside. */
  lemma RunStep(states: seq<State>, acts: seq<Action>, i: nat, f: File)
    requires Run(states, acts) && i < |acts|
    ensures Later(states[i], states[i + 1])
    ensures Biased(states[i]) ==> Actives(states[i + 1]) <= Actives(states[i])
    ensures Drained(states[i]) && f in states[i + 1].pde.openers ==> f in states[i].pde.openers
  {
    RunInv(states, acts, i);
    assert Went(states, acts, i);
    PhaseStable(states[i], acts[i]);
    if Biased(states[i]) { NoEntry(states[i], acts[i]); }
    if Drained(states[i]) && f in states[i + 1].pde.openers { NoOpenerAdded(states[i], acts[i], f); }
  }

  lemma LaterOn(s: State, m: State, e: State)
    requires Later(s, m) && Later(m, e)
    ensures Later(s, e)
  {
  }

  lemma {:induction false} PhaseStays(states: seq<State>, acts: seq<Action>, i: nat, j: nat)
    requires Run(states, acts) && i <= j < |states|
    ensures Later(states[i], states[j])
  {
    if i < j {
      PhaseStays(states, acts, i, j - 1);
      RunStep(states, acts, j - 1, 0);
      LaterOn(states[i], states[j - 1], states[j]);
    }
  }

  /**
   * Once proc_entry_rundown has returned, no module hook is running, and none ever runs
   * again, whatever the threads do next.
   */
  lemma RundownSafe(states: seq<State>, acts: seq<Action>, i: nat, j: nat, t: Tid)
    requires Run(states, acts) && i <= j < |states|
    requires states[i].phase == Returned
    requires t < |states[j].threads|
    ensures !InHook(states[j].threads[t])
    ensures states[j].pde.inUse == BIAS
  {
    PhaseStays(states, acts, i, j);
    RunInv(states, acts, j);
    ReturnedIsQuiet(states[j], t);
  }

  /** After BIAS is added callers only leave: none gets in any more. */
  lemma {:induction false} NoNewCallers(states: seq<State>, acts: seq<Action>, i: nat, j: nat)
    requires Run(states, acts) && i <= j < |states|
    requires Biased(states[i])
    ensures Actives(states[j]) <= Actives(states[i])
  {
    if i < j {
      NoNewCallers(states, acts, i, j - 1);
      PhaseStays(states, acts, i, j - 1);
      RunStep(states, acts, j - 1, 0);
    }
  }

  /** Once the remover has seen the last caller leave, the list of openers only shrinks. */
  lemma {:induction false} NoNewOpeners(states: seq<State>, acts: seq<Action>, i: nat, j: nat, f: File)
    requires Run(states, acts) && i <= j < |states|
    requires Drained(states[i]) && f in states[j].pde.openers
    ensures f in states[i].pde.openers
  {
    if i < j {
      PhaseStays(states, acts, i, j - 1);
      RunStep(states, acts, j - 1, f);
      NoNewOpeners(states, acts, i, j - 1, f);
    }
  }

  // ---------- release hooks ----------

  /** The release hook of a file starts at most once, and only for a recorded opener. */
  lemma ReleaseAtMostOnce(states: seq<State>, acts: seq<Action>, i: nat, f: File)
    requires Run(states, acts) && i < |states|
    ensures states[i].releases[f] <= 1
    ensures states[i].releases[f] == 1 ==> f in states[i].recorded
  {
    RunInv(states, acts, i);
    Known(states[i], 0, f);
  }

  lemma ReleasedAndOver(s: State, f: File)
    requires Inv(s) && f in s.recorded && f !in s.pde.pdeos
    ensures s.releases[f] == 1
    ensures forall t :: 0 <= t < |s.threads| ==> !Releasing(s.threads[t], f)
  {
    Known(s, 0, f);
    forall t | 0 <= t < |s.threads| ensures !Releasing(s.threads[t], f) { Known(s, t, f); }
  }

  /**
   * A file that was open at i and whose close has returned by j has had its release hook
   * run exactly once, to the end, by whichever party came first.
   */
  lemma ReleasedByClose(states: seq<State>, acts: seq<Action>, i: nat, j: nat, f: File)
    requires Run(states, acts) && i <= j < |states|
    requires states[i].pde.hasRelease
    requires f in states[i].files && states[i].files[f] == Open
    requires f in states[j].files && states[j].files[f] == Closed
    ensures states[j].releases[f] == 1
    ensures forall t :: 0 <= t < |states[j].threads| ==> !Releasing(states[j].threads[t], f)
  {
    RunInv(states, acts, i);
    Known(states[i], 0, f);
    PhaseStays(states, acts, i, j);
    RunInv(states, acts, j);
    Known(states[j], 0, f);
    ReleasedAndOver(states[j], f);
  }

  /** When the rundown has returned, the same holds of every opener ever recorded. */
  lemma ReleasedByRundown(states: seq<State>, acts: seq<Action>, j: nat, f: File)
    requires Run(states, acts) && j < |states|
    requires states[j].phase == Returned && f in states[j].recorded
    ensures states[j].releases[f] == 1
    ensures forall t :: 0 <= t < |states[j].threads| ==> !Releasing(states[j].threads[t], f)
  {
    RunInv(states, acts, j);
    Known(states[j], 0, f);
    assert f !in states[j].pde.openers;
    ReleasedAndOver(states[j], f);
  }

  /** A read hook never runs on a file whose release hook is running. */
  lemma ReadExcludesRelease(states: seq<State>, acts: seq<Action>, i: nat, t: Tid, u: Tid, f: File)
    requires Run(states, acts) && i < |states|
    requires t < |states[i].threads| && u < |states[i].threads|
    requires states[i].threads[t] == ReadHook(f)
    ensures !(states[i].threads[u].Release? && states[i].threads[u].file == f)
  {
    var s := states[i];
    RunInv(states, acts, i);
    Known(s, t, f);
    Known(s, u, f);
    if s.threads[u].Release? && s.threads[u].side.ByRundown? {
      assert Drained(s);
      NoneActive(s);
    }
  }

  // ---------- progress ----------

  lemma PositiveHas(s: State, w: Pc -> nat) returns (t: Tid)
    requires Sum(s.threads, w) > 0
    ensures t < |s.threads| && w(s.threads[t]) > 0
  {
    SumPositive(s.threads, w);
    t :| 0 <= t < |s.threads| && w(s.threads[t]) > 0;
  }

  lemma HolderSteps(s: State, u: Tid)
    requires u < |s.threads| && ThreadInv(s, u) && s.pde.lock == Some(u)
    ensures CanStep(s, u)
  {
  }

  /** A thread that is neither blocked nor in need of a held lock can step. */
  lemma Unblocked(s: State, u: Tid)
    requires u < |s.threads| && !s.threads[u].Idle? && s.pde.lock == None && !Blocking(s.threads[u])
    ensures CanStep(s, u)
  {
  }

  /** While the remover waits unsignalled, a caller is still inside or about to signal. */
  lemma WaitedFor(s: State, t: Tid) returns (u: Tid)
    requires CounterInv(s) && PhaseInv(s) && s.pde.lock == None
    requires t < |s.threads| && ThreadInv(s, t) && s.threads[t].RunWait? && t !in s.done
    ensures CanStep(s, u)
  {
    if Actives(s) > 0 { u := PositiveHas(s, ActiveWeight); } else { u := PositiveHas(s, SignalWeight); }
    Unblocked(s, u);
  }

  /** No lost wake-up and no deadlock: while any call is unfinished, some thread can step. */
  lemma Progress(s: State, t: Tid) returns (u: Tid)
    requires Inv(s) && t < |s.threads| && !s.threads[t].Idle?
    ensures CanStep(s, u)
  {
    Known(s, t, 0);
    if s.pde.lock.Some? {
      u := s.pde.lock.value;
      Known(s, u, 0);
      HolderSteps(s, u);
    } else if t in s.done || !Blocking(s.threads[t]) {
      u := t;
    } else if s.threads[t].Wait? {
      var f := s.threads[t].file;
      Known(s, t, f);
      u := s.owner[f];
      Unblocked(s, u);
    } else {
      u := WaitedFor(s, t);
    }
  }

  function Starts(acts: seq<Action>): nat {
    if acts == [] then 0 else Starts(acts[..|acts| - 1]) + (if acts[|acts| - 1].Step? then 0 else 1)
  }

  lemma StartMeasure(s: State, a: Action)
    requires Enabled(s, a) && !a.Step?
    ensures Measure(Next(s, a)) <= Measure(s) + 18
  {
    SumUpdate(s.threads, a.tid, Next(s, a).threads[a.tid], Rank);
  }

  lemma ActionMeasure(s: State, a: Action)
    requires Inv(s) && Enabled(s, a)
    ensures Measure(Next(s, a)) + 1 <= Measure(s) + (if a.Step? then 0 else 19)
  {
    if a.Step? {
      StepEffect(s, a.tid, a.hookOk);
      RankStep(s, Next(s, a), a.tid);
    } else {
      StartMeasure(s, a);
    }
  }

  lemma RunPrefix(states: seq<State>, acts: seq<Action>)
    requires Run(states, acts) && acts != []
    ensures Run(states[..|acts|], acts[..|acts| - 1])
  {
    var ss, aa := states[..|acts|], acts[..|acts| - 1];
    forall i | 0 <= i < |aa| ensures Went(ss, aa, i) { assert Went(states, acts, i); }
  }

  /**
   * Every call returns: a run in which k calls were started has at most 19 * k actions, so
   * with finitely many calls every schedule ends with all threads idle and the entry drained.
   */
  lemma {:induction false} RunsEnd(states: seq<State>, acts: seq<Action>)
    requires Run(states, acts)
    ensures |acts| + Measure(states[|acts|]) <= 19 * Starts(acts)
  {
    var n := |acts|;
    if n == 0 {
      IdleSum(states[0].threads, Rank);
    } else {
      RunPrefix(states, acts);
      RunsEnd(states[..n], acts[..n - 1]);
      RunInv(states, acts, n - 1);
      assert Went(states, acts, n - 1);
      ActionMeasure(states[n - 1], acts[n - 1]);
    }
  }

  /** A run that cannot go on has finished every call, and a started rundown has returned. */
  lemma StuckMeansDone(states: seq<State>, acts: seq<Action>)
    requires Run(states, acts)
    requires forall t :: !CanStep(states[|acts|], t)
    ensures forall t :: 0 <= t < |states[|acts|].threads| ==> states[|acts|].threads[t].Idle?
    ensures !states[|acts|].phase.Running?
  {
    var s := states[|acts|];
    RunInv(states, acts, |acts|);
    forall t | 0 <= t < |s.threads| ensures s.threads[t].Idle? {
      if !s.threads[t].Idle? { var u := Progress(s, t); }
    }
    Known(s, 0, 0);
  }
}
