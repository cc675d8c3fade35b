/**
 * Phase switching with condition variables: HamielecKarol/cw01/zad6/zad6.c.  Writers fill a
 * queue of three elements, then readers drain it, then writers fill it again.  The threads
 * run as a state machine of atomic steps under one mutex.
 */
module Phases {
  import opened Wrappers
  import Ring

  const QUEUE_ELEMENTS: nat := 3

  // Where a thread is: before pthread_mutex_lock (or woken and taking the mutex again), at the
  // loop condition, before the queue operation, before the test for a phase switch, before
  // pthread_mutex_unlock, parked in pthread_cond_wait, returned.
  datatype Pc = Lock | Check | Act | Signal | Unlock | Wait | Done

  // Threads 0..w are writers, w..w + r readers.
  datatype Config = Config(w: nat, r: nat)

  // put: the writers that have put their letter, in order; got: the letters read, in order;
  // failed: some queue operation returned -1.
  datatype State = State(pcs: seq<Pc>, mutex: Option<nat>, writersMode: bool, queue: seq<int>,
                         put: seq<nat>, got: seq<int>, failed: bool)

  datatype Action = Step(t: nat) | Spurious(t: nat)

  predicate MayEnter(c: Config, s: State, t: nat) {
    if t < c.w then s.writersMode else !s.writersMode
  }

  /** pthread_cond_broadcast: all threads lo..hi parked on the condition leave it. */
  function Wake(pcs: seq<Pc>, lo: nat, hi: nat): (r: seq<Pc>)
    ensures |r| == |pcs|
  {
    seq(|pcs|, i requires 0 <= i < |pcs| => if lo <= i < hi && pcs[i] == Wait then Lock else pcs[i])
  }

  // ---------- the steps of thread t ----------

  function LockStep(s: State, t: nat): State
    requires t < |s.pcs|
  {
    s.(pcs := s.pcs[t := Check], mutex := Some(t))
  }

  /** The while condition; pthread_cond_wait parks the thread and frees the mutex in one step. */
  function CheckStep(c: Config, s: State, t: nat): State
    requires t < |s.pcs|
  {
    if MayEnter(c, s, t) then s.(pcs := s.pcs[t := Act])
    else s.(pcs := s.pcs[t := Wait], mutex := None)
  }

  function PutStep(s: State, t: nat): State
    requires t < |s.pcs|
  {
    if |s.queue| < QUEUE_ELEMENTS
    then s.(pcs := s.pcs[t := Signal], queue := Ring.Put(s.queue, QUEUE_ELEMENTS, Ring.Letter(t)), put := s.put + [t])
    else s.(pcs := s.pcs[t := Signal], failed := true)
  }

  function GetStep(s: State, t: nat): State
    requires t < |s.pcs|
  {
    if s.queue != []
    then s.(pcs := s.pcs[t := Signal], queue := s.queue[1..], got := s.got + [s.queue[0]])
    else s.(pcs := s.pcs[t := Signal], failed := true)
  }

  function WriterSignalStep(c: Config, s: State, t: nat): State
    requires t < |s.pcs|
  {
    if |s.queue| == QUEUE_ELEMENTS
    then s.(pcs := Wake(s.pcs, c.w, c.w + c.r)[t := Unlock], writersMode := false)
    else s.(pcs := s.pcs[t := Unlock])
  }

  function ReaderSignalStep(c: Config, s: State, t: nat): State
    requires t < |s.pcs|
  {
    if s.queue == []
    then s.(pcs := Wake(s.pcs, 0, c.w)[t := Unlock], writersMode := true)
    else s.(pcs := s.pcs[t := Unlock])
  }

  function UnlockStep(s: State, t: nat): State
    requires t < |s.pcs|
  {
    s.(pcs := s.pcs[t := Done], mutex := None)
  }

  /** pthread_cond_wait may return without a signal. */
  function SpuriousStep(s: State, t: nat): State
    requires t < |s.pcs|
  {
    s.(pcs := s.pcs[t := Lock])
  }

  predicate Enabled(s: State, a: Action) {
    && a.t < |s.pcs|
    && match a
       case Spurious(t) => s.pcs[t] == Wait
       case Step(t) => s.pcs[t] != Wait && s.pcs[t] != Done && (s.pcs[t] == Lock ==> s.mutex == None)
  }

  function Next(c: Config, s: State, a: Action): State
    requires Enabled(s, a)
  {
    var t := a.t;
    if a.Spurious? then SpuriousStep(s, t)
    else
      match s.pcs[t]
      case Lock => LockStep(s, t)
      case Check => CheckStep(c, s, t)
      case Act => if t < c.w then PutStep(s, t) else GetStep(s, t)
      case Signal => if t < c.w then WriterSignalStep(c, s, t) else ReaderSignalStep(c, s, t)
      case _ => UnlockStep(s, t)
  }

  predicate Init(c: Config, s: State) {
    && |s.pcs| == c.w + c.r && (forall t :: 0 <= t < |s.pcs| ==> s.pcs[t] == Lock)
    && s == State(s.pcs, None, true, [], [], [], false)
  }

  ghost predicate Run(c: Config, states: seq<State>, acts: seq<Action>) {
    && |states| == |acts| + 1 && Init(c, states[0])
    && forall i :: 0 <= i < |acts| ==> Went(c, states, acts, i)
  }

  ghost predicate Went(c: Config, states: seq<State>, acts: seq<Action>, i: nat)
    requires |states| == |acts| + 1 && i < |acts|
  {
    Enabled(states[i], acts[i]) && states[i + 1] == Next(c, states[i], acts[i])
  }

  // ---------- counting threads ----------

  /** The thread has done its queue operation. */
  predicate Past(pc: Pc) { pc == Signal || pc == Unlock || pc == Done }

  function Count(pcs: seq<Pc>, lo: nat, hi: nat): nat
    requires hi <= |pcs|
    decreases hi
  {
    if hi <= lo then 0
    else if Past(pcs[hi - 1]) then Count(pcs, lo, hi - 1) + 1
    else Count(pcs, lo, hi - 1)
  }

  lemma {:induction false} CountSame(a: seq<Pc>, b: seq<Pc>, lo: nat, hi: nat)
    requires hi <= |a| == |b|
    requires forall i :: lo <= i < hi ==> Past(a[i]) == Past(b[i])
    ensures Count(a, lo, hi) == Count(b, lo, hi)
    decreases hi
  {
    if lo < hi { CountSame(a, b, lo, hi - 1); }
  }

  lemma {:induction false} CountOneMore(a: seq<Pc>, lo: nat, hi: nat, t: nat, pc: Pc)
    requires lo <= t < hi <= |a| && !Past(a[t]) && Past(pc)
    ensures Count(a[t := pc], lo, hi) == Count(a, lo, hi) + 1
    decreases hi
  {
    if t == hi - 1 { CountSame(a, a[t := pc], lo, hi - 1); }
    else { CountOneMore(a, lo, hi - 1, t, pc); }
  }

  lemma {:induction false} CountAtMost(pcs: seq<Pc>, lo: nat, hi: nat)
    requires lo <= hi <= |pcs|
    ensures Count(pcs, lo, hi) <= hi - lo
    ensures Count(pcs, lo, hi) == hi - lo <==> forall i :: lo <= i < hi ==> Past(pcs[i])
    decreases hi
  {
    if lo < hi { CountAtMost(pcs, lo, hi - 1); }
  }

  // ---------- the invariant ----------

  predicate Inside(pc: Pc) { pc == Check || pc == Act || pc == Signal || pc == Unlock }

  /** Exactly the thread that owns the mutex is inside. */
  predicate MutexOk(s: State) {
    && (s.mutex.Some? ==> s.mutex.value < |s.pcs|)
    && forall t :: 0 <= t < |s.pcs| ==> (Inside(s.pcs[t]) <==> s.mutex == Some(t))
  }

  /** A parked thread has nothing to do in this phase: no wake-up has been lost. */
  predicate WaitersOk(c: Config, s: State) {
    forall t :: 0 <= t < |s.pcs| && s.pcs[t] == Wait ==> !MayEnter(c, s, t)
  }

  predicate ActorsOk(c: Config, s: State) {
    forall t :: 0 <= t < |s.pcs| && (s.pcs[t] == Act || s.pcs[t] == Signal) ==> MayEnter(c, s, t)
  }

  /** Some thread is about to test for a phase switch. */
  predicate Signalling(s: State) {
    s.mutex.Some? && s.mutex.value < |s.pcs| && s.pcs[s.mutex.value] == Signal
  }

  /** How far the two sides are: p letters put, g letters read. */
  predicate PhaseOk(s: State) {
    var p, g := |s.put|, |s.got|;
    if s.writersMode then g % 3 == 0 && g <= p <= g + 3 && (p == g + 3 ==> Signalling(s))
    else p % 3 == 0 && g <= p <= g + 3 && (p == g ==> Signalling(s))
  }

  function Times(c: Config, s: State, t: nat): nat
    requires |s.pcs| == c.w + c.r
  {
    if t < c.w && Past(s.pcs[t]) then 1 else 0
  }

  /** Letters are read in the order they were put, and each finished writer has put its own once. */
  ghost predicate HistoryOk(c: Config, s: State) {
    && |s.pcs| == c.w + c.r
    && s.got + s.queue == Ring.Letters(s.put)
    && |s.put| == Count(s.pcs, 0, c.w) && |s.got| == Count(s.pcs, c.w, c.w + c.r)
    && forall t: nat :: multiset(s.put)[t] == Times(c, s, t)
  }

  predicate ThreadsOk(c: Config, s: State) {
    !s.failed && MutexOk(s) && WaitersOk(c, s) && ActorsOk(c, s) && PhaseOk(s)
  }

  ghost predicate Inv(c: Config, s: State) {
    HistoryOk(c, s) && ThreadsOk(c, s)
  }

  lemma {:induction false} InitHistory(c: Config, s: State)
    requires Init(c, s)
    ensures HistoryOk(c, s)
  {
    CountNone(s.pcs, 0, c.w);
    CountNone(s.pcs, c.w, c.w + c.r);
    forall t: nat ensures multiset(s.put)[t] == Times(c, s, t) {
      assert t < c.w ==> s.pcs[t] == Lock;
    }
  }

  lemma {:induction false} InitInv(c: Config, s: State)
    requires Init(c, s)
    ensures Inv(c, s)
  {
    InitHistory(c, s);
  }

  lemma {:induction false} CountNone(pcs: seq<Pc>, lo: nat, hi: nat)
    requires hi <= |pcs| && forall i :: lo <= i < hi ==> pcs[i] == Lock
    ensures Count(pcs, lo, hi) == 0
    decreases hi
  {
    if lo < hi { CountNone(pcs, lo, hi - 1); }
  }

  /** A step that neither puts nor gets keeps the history. */
  lemma {:induction false} HistorySame(c: Config, s: State, z: State)
    requires HistoryOkShape(c, s, z) && HistoryOk(c, s)
    ensures HistoryOk(c, z)
  {
    CountSame(s.pcs, z.pcs, 0, c.w);
    CountSame(s.pcs, z.pcs, c.w, c.w + c.r);
    forall t: nat ensures multiset(z.put)[t] == Times(c, z, t) { assert multiset(s.put)[t] == Times(c, s, t); }
  }

  predicate HistoryOkShape(c: Config, s: State, z: State) {
    && |s.pcs| == |z.pcs| == c.w + c.r
    && s.queue == z.queue && s.put == z.put && s.got == z.got
    && forall t :: 0 <= t < |s.pcs| ==> Past(s.pcs[t]) == Past(z.pcs[t])
  }

  lemma {:induction false} LockInv(c: Config, s: State, t: nat)
    requires Inv(c, s) && t < |s.pcs| && s.pcs[t] == Lock && s.mutex == None
    ensures Inv(c, LockStep(s, t))
  {
    HistorySame(c, s, LockStep(s, t));
  }

  lemma {:induction false} CheckInv(c: Config, s: State, t: nat)
    requires Inv(c, s) && t < |s.pcs| && s.pcs[t] == Check
    ensures Inv(c, CheckStep(c, s, t))
  {
    HistorySame(c, s, CheckStep(c, s, t));
  }

  lemma {:induction false} UnlockInv(c: Config, s: State, t: nat)
    requires Inv(c, s) && t < |s.pcs| && s.pcs[t] == Unlock
    ensures Inv(c, UnlockStep(s, t))
  {
    HistorySame(c, s, UnlockStep(s, t));
  }

  lemma {:induction false} SpuriousInv(c: Config, s: State, t: nat)
    requires Inv(c, s) && t < |s.pcs| && s.pcs[t] == Wait
    ensures Inv(c, SpuriousStep(s, t))
  {
    HistorySame(c, s, SpuriousStep(s, t));
  }

  lemma {:induction false} PutHistory(c: Config, s: State, t: nat)
    requires HistoryOk(c, s) && t < c.w && s.pcs[t] == Act && |s.queue| < QUEUE_ELEMENTS
    ensures HistoryOk(c, PutStep(s, t))
  {
    var z := PutStep(s, t);
    Ring.LettersAppend(s.put, t);
    CountOneMore(s.pcs, 0, c.w, t, Signal);
    CountSame(s.pcs, z.pcs, c.w, c.w + c.r);
    assert z.got + z.queue == (s.got + s.queue) + [Ring.Letter(t)];
    PutTimes(c, s, t);
  }

  lemma {:induction false} PutTimes(c: Config, s: State, t: nat)
    requires HistoryOk(c, s) && t < c.w && s.pcs[t] == Act && |s.queue| < QUEUE_ELEMENTS
    ensures forall i: nat :: multiset(PutStep(s, t).put)[i] == Times(c, PutStep(s, t), i)
  {
    var z := PutStep(s, t);
    forall i: nat ensures multiset(z.put)[i] == Times(c, z, i) { assert multiset(s.put)[i] == Times(c, s, i); }
  }

  lemma {:induction false} GetHistory(c: Config, s: State, t: nat)
    requires HistoryOk(c, s) && c.w <= t < |s.pcs| && s.pcs[t] == Act && s.queue != []
    ensures HistoryOk(c, GetStep(s, t))
  {
    var z := GetStep(s, t);
    CountOneMore(s.pcs, c.w, c.w + c.r, t, Signal);
    CountSame(s.pcs, z.pcs, 0, c.w);
    assert z.got + z.queue == s.got + s.queue;
    forall i: nat ensures multiset(z.put)[i] == Times(c, z, i) { assert multiset(s.put)[i] == Times(c, s, i); }
  }

  lemma {:induction false} QueueLength(c: Config, s: State)
    requires HistoryOk(c, s)
    ensures |s.queue| == |s.put| - |s.got|
  {
    assert |s.got + s.queue| == |s.put|;
  }

  lemma {:induction false} PutThreads(c: Config, s: State, t: nat)
    requires ThreadsOk(c, s) && t < c.w && t < |s.pcs| && s.pcs[t] == Act && |s.queue| == |s.put| - |s.got|
    ensures ThreadsOk(c, PutStep(s, t)) && |s.queue| < QUEUE_ELEMENTS
  {
  }

  lemma {:induction false} GetThreads(c: Config, s: State, t: nat)
    requires ThreadsOk(c, s) && c.w <= t < |s.pcs| && s.pcs[t] == Act && |s.queue| == |s.put| - |s.got|
    ensures ThreadsOk(c, GetStep(s, t)) && s.queue != []
  {
  }

  lemma {:induction false} WriterSignalThreads(c: Config, s: State, t: nat)
    requires ThreadsOk(c, s) && t < c.w && t < |s.pcs| == c.w + c.r
    requires s.pcs[t] == Signal && |s.queue| == |s.put| - |s.got|
    ensures ThreadsOk(c, WriterSignalStep(c, s, t))
  {
  }

  lemma {:induction false} ReaderSignalThreads(c: Config, s: State, t: nat)
    requires ThreadsOk(c, s) && c.w <= t < |s.pcs| == c.w + c.r
    requires s.pcs[t] == Signal && |s.queue| == |s.put| - |s.got|
    ensures ThreadsOk(c, ReaderSignalStep(c, s, t))
  {
  }

  lemma {:induction false} PutInv(c: Config, s: State, t: nat)
    requires Inv(c, s) && t < c.w && s.pcs[t] == Act
    ensures Inv(c, PutStep(s, t)) && |s.queue| < QUEUE_ELEMENTS
  {
    QueueLength(c, s);
    PutThreads(c, s, t);
    PutHistory(c, s, t);
  }

  lemma {:induction false} GetInv(c: Config, s: State, t: nat)
    requires Inv(c, s) && c.w <= t < |s.pcs| && s.pcs[t] == Act
    ensures Inv(c, GetStep(s, t)) && s.queue != []
  {
    QueueLength(c, s);
    GetThreads(c, s, t);
    GetHistory(c, s, t);
  }

  lemma {:induction false} WriterSignalInv(c: Config, s: State, t: nat)
    requires Inv(c, s) && t < c.w && s.pcs[t] == Signal
    ensures Inv(c, WriterSignalStep(c, s, t))
  {
    QueueLength(c, s);
    HistorySame(c, s, WriterSignalStep(c, s, t));
    WriterSignalThreads(c, s, t);
  }

  lemma {:induction false} ReaderSignalInv(c: Config, s: State, t: nat)
    requires Inv(c, s) && c.w <= t < |s.pcs| && s.pcs[t] == Signal
    ensures Inv(c, ReaderSignalStep(c, s, t))
  {
    QueueLength(c, s);
    HistorySame(c, s, ReaderSignalStep(c, s, t));
    ReaderSignalThreads(c, s, t);
  }

  lemma {:induction false} NextInv(c: Config, s: State, a: Action)
    requires Inv(c, s) && Enabled(s, a)
    ensures Inv(c, Next(c, s, a))
  {
    var t := a.t;
    if a.Spurious? { SpuriousInv(c, s, t); }
    else if s.pcs[t] == Lock { LockInv(c, s, t); }
    else if s.pcs[t] == Check { CheckInv(c, s, t); }
    else if s.pcs[t] == Unlock { UnlockInv(c, s, t); }
    else if s.pcs[t] == Act {
      if t < c.w { PutInv(c, s, t); } else { GetInv(c, s, t); }
    } else {
      if t < c.w { WriterSignalInv(c, s, t); } else { ReaderSignalInv(c, s, t); }
    }
  }
}
