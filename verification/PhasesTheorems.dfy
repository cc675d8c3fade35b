/**
 * What zad6 guarantees on every run, for any number of writers and readers: order, batches,
 * wake-ups, and exactly when everyone finishes.
 */
module PhasesTheorems {
  import Ring
  import opened Phases

  lemma {:induction false} RunInv(c: Config, states: seq<State>, acts: seq<Action>, i: nat)
    requires Run(c, states, acts) && i < |states|
    ensures Inv(c, states[i])
  {
    if i == 0 { InitInv(c, states[0]); }
    else {
      RunInv(c, states, acts, i - 1);
      assert Went(c, states, acts, i - 1);
      NextInv(c, states[i - 1], acts[i - 1]);
    }
  }

  /**
   * No queue operation ever fails; the letters read are a prefix of the letters put, in order;
   * every writer that is past its put has put its letter exactly once.
   */
  lemma InOrder(c: Config, states: seq<State>, acts: seq<Action>, i: nat)
    requires Run(c, states, acts) && i < |states|
    ensures var s := states[i];
      && !s.failed
      && s.got <= Ring.Letters(s.put)
      && |s.pcs| == c.w + c.r
      && forall t :: 0 <= t < c.w ==> (multiset(s.put)[t] == if Past(s.pcs[t]) then 1 else 0)
  {
    RunInv(c, states, acts, i);
    var s := states[i];
    assert Ring.Letters(s.put)[..|s.got|] == (s.got + s.queue)[..|s.got|];
    forall t | 0 <= t < c.w ensures multiset(s.put)[t] == if Past(s.pcs[t]) then 1 else 0 {
      assert multiset(s.put)[t] == Times(c, s, t);
    }
  }

  /**
   * Batches: nothing of batch k is read before all three letters of it are put, and nothing of
   * the next batch is put before all three are read.
   */
  lemma WholeBatches(c: Config, states: seq<State>, acts: seq<Action>, i: nat, k: nat)
    requires Run(c, states, acts) && i < |states|
    ensures |states[i].got| > k * QUEUE_ELEMENTS ==> |states[i].put| >= (k + 1) * QUEUE_ELEMENTS
    ensures |states[i].put| > (k + 1) * QUEUE_ELEMENTS ==> |states[i].got| >= (k + 1) * QUEUE_ELEMENTS
  {
    RunInv(c, states, acts, i);
  }

  /** No wake-up is lost: a thread stays parked only while its side has nothing to do. */
  lemma NoLostWakeUp(c: Config, states: seq<State>, acts: seq<Action>, i: nat, t: nat)
    requires Run(c, states, acts) && i < |states|
    requires t < |states[i].pcs| && states[i].pcs[t] == Wait
    ensures !MayEnter(c, states[i], t)
  {
    RunInv(c, states, acts, i);
  }

  /** At most one thread is between lock and unlock. */
  lemma OneInside(c: Config, states: seq<State>, acts: seq<Action>, i: nat, t: nat, u: nat)
    requires Run(c, states, acts) && i < |states|
    requires t < |states[i].pcs| && u < |states[i].pcs| && Inside(states[i].pcs[t]) && Inside(states[i].pcs[u])
    ensures t == u
  {
    RunInv(c, states, acts, i);
  }

  // ---------- who finishes ----------

  predicate AllDone(s: State) {
    forall t :: 0 <= t < |s.pcs| ==> s.pcs[t] == Done
  }

  predicate Stuck(s: State) {
    forall t :: 0 <= t < |s.pcs| ==> !Enabled(s, Step(t))
  }

  /** Either the last fill phase or the last drain phase stops half way with no one left. */
  predicate Balanced(c: Config) {
    (c.r % QUEUE_ELEMENTS == 0 && c.r <= c.w < c.r + QUEUE_ELEMENTS)
    || (c.w % QUEUE_ELEMENTS == 0 && c.r < c.w <= c.r + QUEUE_ELEMENTS)
  }

  lemma StuckThreads(c: Config, s: State)
    requires Inv(c, s) && Stuck(s)
    ensures s.mutex.None?
    ensures forall t :: 0 <= t < |s.pcs| ==> s.pcs[t] == Done || s.pcs[t] == Wait
  {
    if s.mutex.Some? { assert !Enabled(s, Step(s.mutex.value)); }
    forall t | 0 <= t < |s.pcs| ensures s.pcs[t] == Done || s.pcs[t] == Wait {
      assert !Enabled(s, Step(t));
    }
  }

  lemma {:induction false} StuckCounts(c: Config, s: State)
    requires Inv(c, s) && Stuck(s)
    ensures |s.put| <= c.w && |s.got| <= c.r && (AllDone(s) <==> |s.put| == c.w && |s.got| == c.r)
    ensures if s.writersMode then |s.put| == c.w else |s.got| == c.r
  {
    StuckThreads(c, s);
    CountAtMost(s.pcs, 0, c.w);
    CountAtMost(s.pcs, c.w, c.w + c.r);
    assert forall t :: 0 <= t < |s.pcs| ==> (Past(s.pcs[t]) <==> s.pcs[t] == Done);
    assert forall t :: 0 <= t < |s.pcs| && s.pcs[t] == Wait ==> !MayEnter(c, s, t);
  }

  // p letters put, g read, the threads of the phase all returned.
  lemma {:induction false} Stop(c: Config, writing: bool, p: nat, g: nat)
    requires p <= c.w && g <= c.r
    requires if writing then p == c.w && g % 3 == 0 && g <= p < g + 3 else g == c.r && p % 3 == 0 && g < p <= g + 3
    ensures p == c.w && g == c.r <==> Balanced(c)
  {
  }

  /**
   * The only states without an enabled step are those where every thread has returned, if
   * the numbers of writers and readers balance; if they do not, a stuck state leaves some
   * thread parked for ever.
   */
  lemma {:induction false} StuckMeansDone(c: Config, states: seq<State>, acts: seq<Action>, i: nat)
    requires Run(c, states, acts) && i < |states| && Stuck(states[i])
    ensures AllDone(states[i]) <==> Balanced(c)
  {
    var s := states[i];
    RunInv(c, states, acts, i);
    StuckThreads(c, s);
    StuckCounts(c, s);
    Stop(c, s.writersMode, |s.put|, |s.got|);
  }

  /** As many readers as writers: everyone finishes if and only if whole batches are written. */
  lemma EqualNumbers(n: nat)
    ensures Balanced(Config(n, n)) <==> n % QUEUE_ELEMENTS == 0
  {
  }

  // ---------- every run ends ----------

  /** Steps a thread still has before it, with room for the wake-ups its signal may cause. */
  function Rank(pc: Pc, n: nat): nat {
    match pc
    case Lock => 2 * n + 6
    case Check => 2 * n + 5
    case Wait => 2 * n + 4
    case Act => 2 * n + 3
    case Signal => 2 * n + 2
    case Unlock => 1
    case Done => 0
  }

  function Measure(pcs: seq<Pc>, n: nat, k: nat): nat
    requires k <= |pcs|
  {
    if k == 0 then 0 else Measure(pcs, n, k - 1) + Rank(pcs[k - 1], n)
  }

  lemma {:induction false} MeasureUpdate(pcs: seq<Pc>, n: nat, k: nat, t: nat, pc: Pc)
    requires k <= |pcs| && t < |pcs|
    ensures Measure(pcs[t := pc], n, k) == Measure(pcs, n, k) + (if t < k then Rank(pc, n) - Rank(pcs[t], n) else 0)
  {
    if k > 0 { MeasureUpdate(pcs, n, k - 1, t, pc); }
  }

  lemma {:induction false} MeasureWake(pcs: seq<Pc>, n: nat, k: nat, lo: nat, hi: nat)
    requires k <= |pcs|
    ensures Measure(Wake(pcs, lo, hi), n, k) <= Measure(pcs, n, k) + 2 * k
  {
    if k > 0 { MeasureWake(pcs, n, k - 1, lo, hi); }
  }

  function Work(s: State): nat { Measure(s.pcs, |s.pcs|, |s.pcs|) }

  lemma {:induction false} SignalDecreases(s: State, t: nat, lo: nat, hi: nat)
    requires t < |s.pcs| && s.pcs[t] == Signal
    ensures Measure(Wake(s.pcs, lo, hi)[t := Unlock], |s.pcs|, |s.pcs|) < Work(s)
  {
    var n := |s.pcs|;
    MeasureWake(s.pcs, n, n, lo, hi);
    MeasureUpdate(Wake(s.pcs, lo, hi), n, n, t, Unlock);
  }

  lemma {:induction false} SignalWork(c: Config, s: State, a: Action)
    requires Enabled(s, a) && a.Step? && s.pcs[a.t] == Signal
    ensures Work(Next(c, s, a)) < Work(s)
  {
    var t := a.t;
    if t < c.w { SignalDecreases(s, t, c.w, c.w + c.r); } else { SignalDecreases(s, t, 0, c.w); }
    MeasureUpdate(s.pcs, |s.pcs|, |s.pcs|, t, Unlock);
  }

  /** Every step uses up work; a spurious wake-up gives back at most two steps. */
  lemma {:induction false} WorkDecreases(c: Config, s: State, a: Action)
    requires Inv(c, s) && Enabled(s, a)
    ensures if a.Step? then Work(Next(c, s, a)) < Work(s) else Work(Next(c, s, a)) == Work(s) + 2
  {
    var t := a.t;
    if a.Step? && s.pcs[t] == Signal {
      SignalWork(c, s, a);
    } else {
      OthersStay(c, s, a);
      MeasureUpdate(s.pcs, |s.pcs|, |s.pcs|, t, Next(c, s, a).pcs[t]);
    }
  }

  /** Only a signal moves other threads. */
  lemma {:induction false} OthersStay(c: Config, s: State, a: Action)
    requires Enabled(s, a) && (a.Spurious? || s.pcs[a.t] != Signal)
    ensures var pcs, n := Next(c, s, a).pcs, |s.pcs|;
      && |pcs| == n && pcs == s.pcs[a.t := pcs[a.t]]
      && Rank(pcs[a.t], n) <= Rank(s.pcs[a.t], n) + (if a.Spurious? then 2 else -1)
      && (a.Spurious? ==> Rank(pcs[a.t], n) == Rank(s.pcs[a.t], n) + 2)
  {
  }

  function Spurious(acts: seq<Action>, k: nat): nat
    requires k <= |acts|
  {
    if k == 0 then 0 else Spurious(acts, k - 1) + (if acts[k - 1].Spurious? then 1 else 0)
  }

  lemma {:induction false} WorkOverRun(c: Config, states: seq<State>, acts: seq<Action>, k: nat)
    requires Run(c, states, acts) && k <= |acts|
    ensures k + Work(states[k]) <= Work(states[0]) + 3 * Spurious(acts, k)
  {
    if k > 0 {
      WorkOverRun(c, states, acts, k - 1);
      RunInv(c, states, acts, k - 1);
      assert Went(c, states, acts, k - 1);
      WorkDecreases(c, states[k - 1], acts[k - 1]);
    }
  }

  lemma {:induction false} MeasureBound(pcs: seq<Pc>, n: nat, k: nat)
    requires k <= |pcs|
    ensures Measure(pcs, n, k) <= k * (2 * n + 6)
  {
    if k > 0 {
      MeasureBound(pcs, n, k - 1);
      assert k * (2 * n + 6) == (k - 1) * (2 * n + 6) + (2 * n + 6);
    }
  }

  /**
   * Every run is finite: without spurious wake-ups n threads take at most n(2n + 6) steps, and
   * each spurious wake-up adds at most three.
   */
  lemma {:induction false} RunsEnd(c: Config, states: seq<State>, acts: seq<Action>)
    requires Run(c, states, acts)
    ensures var n := c.w + c.r; |acts| <= n * (2 * n + 6) + 3 * Spurious(acts, |acts|)
  {
    WorkOverRun(c, states, acts, |acts|);
    MeasureBound(states[0].pcs, c.w + c.r, c.w + c.r);
  }
}
