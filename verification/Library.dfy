/**
 * The library with a special writer: HamielecKarol/cw01/zad2/zad2.c.  Writers put letters
 * into a queue; the special writer takes three at a time and copies them into the library
 * while no reader reads it.
 */
module Library {
  import opened Wrappers
  import Ring
  import R = Readers

  const SWRITER_SIZE: nat := 3
  const QUEUE_ELEMENTS: nat := 15
  const BOOKS: nat := 20

  // A writer: before the mutex, before QueuePut, before the test for a broadcast, before the
  // unlock, returned.
  datatype WPc = WLock | WPut | WSignal | WUnlock | WDone

  // The special writer: before the mutex, at the loop condition, before QueueGet(&rcv[i]), before
  // the unlock, before sem_wait(&writerSem), before the copy of rcv[i], before sem_post, parked.
  datatype SPc = SLock | SCheck | SGet(i: nat) | SUnlock | STake | SCopy(i: nat) | SGive | SWait

  datatype Owner = Special | OneWriter(t: nat)

  // lib: books[..top]; put: the writers that have put their letter, in order; failed: a queue
  // operation returned -1, or a letter was stored behind the end of books.
  datatype State = State(rw: R.Rw, ws: seq<WPc>, sp: SPc, mutex: Option<Owner>, queue: seq<int>,
                         rcv: seq<int>, lib: seq<int>, put: seq<nat>, failed: bool)

  datatype Action = Reader(t: nat) | Writer(t: nat) | SpecialWriter | Spurious

  predicate Enabled(s: State, a: Action) {
    match a
    case Reader(t) => R.Enabled(s.rw, t)
    case Writer(t) => t < |s.ws| && s.ws[t] != WDone && (s.ws[t] == WLock ==> s.mutex == None)
    case SpecialWriter =>
      s.sp != SWait && (s.sp == SLock ==> s.mutex == None) && (s.sp == STake ==> s.rw.writerSem > 0)
    case Spurious => s.sp == SWait
  }

  function PutStep(s: State, t: nat): State
    requires t < |s.ws|
  {
    if |s.queue| < QUEUE_ELEMENTS
    then s.(ws := s.ws[t := WSignal], queue := Ring.Put(s.queue, QUEUE_ELEMENTS, Ring.Letter(t)), put := s.put + [t])
    else s.(ws := s.ws[t := WSignal], failed := true)
  }

  /** The broadcast reaches the special writer, the only thread that waits on the condition. */
  function SignalStep(s: State, t: nat): State
    requires t < |s.ws|
  {
    s.(ws := s.ws[t := WUnlock], sp := if |s.queue| >= SWRITER_SIZE && s.sp == SWait then SLock else s.sp)
  }

  function WriterStep(s: State, t: nat): State
    requires t < |s.ws| && s.ws[t] != WDone
  {
    match s.ws[t]
    case WLock => s.(ws := s.ws[t := WPut], mutex := Some(OneWriter(t)))
    case WPut => PutStep(s, t)
    case WSignal => SignalStep(s, t)
    case _ => s.(ws := s.ws[t := WDone], mutex := None)
  }

  function GetStep(s: State, i: nat): State {
    var next := if i + 1 < SWRITER_SIZE then SGet(i + 1) else SUnlock;
    if s.queue != [] then s.(sp := next, rcv := s.rcv + [s.queue[0]], queue := s.queue[1..])
    else s.(sp := next, failed := true)
  }

  function CopyStep(s: State, i: nat): State {
    var next := if i + 1 < SWRITER_SIZE then SCopy(i + 1) else SGive;
    if i < |s.rcv| && |s.lib| < BOOKS then s.(sp := next, lib := s.lib + [s.rcv[i]])
    else s.(sp := next, failed := true)
  }

  function SpecialStep(s: State): State
    requires s.sp != SWait
  {
    match s.sp
    case SLock => s.(sp := SCheck, mutex := Some(Special))
    case SCheck => if |s.queue| < 3 then s.(sp := SWait, mutex := None) else s.(sp := SGet(0))
    case SGet(i) => GetStep(s, i)
    case SUnlock => s.(sp := STake, mutex := None)
    case STake => s.(sp := SCopy(0), rw := s.rw.(writerSem := s.rw.writerSem - 1))
    case SCopy(i) => CopyStep(s, i)
    case _ => s.(sp := SLock, rw := s.rw.(writerSem := s.rw.writerSem + 1), rcv := [])
  }

  function Next(s: State, a: Action): State
    requires Enabled(s, a)
  {
    match a
    case Reader(t) => s.(rw := R.Next(s.rw, t))
    case Writer(t) => WriterStep(s, t)
    case SpecialWriter => SpecialStep(s)
    case Spurious => s.(sp := SLock)
  }

  predicate Init(s: State) {
    R.Init(s.rw) && (forall t :: 0 <= t < |s.ws| ==> s.ws[t] == WLock)
    && s == State(s.rw, s.ws, SLock, None, [], [], [], [], false)
  }

  ghost predicate Run(states: seq<State>, acts: seq<Action>) {
    && |states| == |acts| + 1 && Init(states[0])
    && forall i :: 0 <= i < |acts| ==> Went(states, acts, i)
  }

  ghost predicate Went(states: seq<State>, acts: seq<Action>, i: nat)
    requires |states| == |acts| + 1 && i < |acts|
  {
    Enabled(states[i], acts[i]) && states[i + 1] == Next(states[i], acts[i])
  }

  // ---------- counting ----------

  predicate Past(pc: WPc) { pc == WSignal || pc == WUnlock || pc == WDone }

  function Count(ws: seq<WPc>, n: nat): nat
    requires n <= |ws|
  {
    if n == 0 then 0 else Count(ws, n - 1) + if Past(ws[n - 1]) then 1 else 0
  }

  lemma {:induction false} CountUpdate(ws: seq<WPc>, n: nat, t: nat, pc: WPc)
    requires n <= |ws| && t < |ws|
    ensures Count(ws[t := pc], n) == Count(ws, n)
            + if t < n then (if Past(pc) then 1 else 0) - (if Past(ws[t]) then 1 else 0) else 0
  {
    if n > 0 { CountUpdate(ws, n - 1, t, pc); }
  }

  lemma {:induction false} CountAtMost(ws: seq<WPc>, n: nat)
    requires n <= |ws|
    ensures Count(ws, n) <= n
    ensures Count(ws, n) == n <==> forall t :: 0 <= t < n ==> Past(ws[t])
    ensures Count(ws, n) == 0 <==> forall t :: 0 <= t < n ==> !Past(ws[t])
  {
    if n > 0 { CountAtMost(ws, n - 1); }
  }

  // ---------- the invariant ----------

  predicate WInside(pc: WPc) { pc != WLock && pc != WDone }

  predicate SInside(pc: SPc) { pc == SCheck || pc.SGet? || pc == SUnlock }

  predicate SWriting(pc: SPc) { pc.SCopy? || pc == SGive }

  /** The letters the special writer has taken and not yet copied. */
  function Transit(s: State): seq<int> {
    match s.sp
    case SCopy(i) => if i <= |s.rcv| then s.rcv[i..] else []
    case SGive => []
    case _ => s.rcv
  }

  predicate MutexOk(s: State) {
    && (s.mutex.Some? && s.mutex.value.OneWriter? ==> s.mutex.value.t < |s.ws|)
    && (SInside(s.sp) <==> s.mutex == Some(Special))
    && forall t :: 0 <= t < |s.ws| ==> (WInside(s.ws[t]) <==> s.mutex == Some(OneWriter(t)))
  }

  /** How much the special writer has taken, and what it can rely on. */
  predicate SpecialOk(s: State) {
    && |s.rcv| == (match s.sp
                   case SGet(i) => i
                   case SUnlock => 3
                   case STake => 3
                   case SCopy(_) => 3
                   case SGive => 3
                   case _ => 0)
    && (s.sp.SGet? ==> s.sp.i < 3 && |s.queue| >= 3 - s.sp.i)
    && (s.sp.SCopy? ==> s.sp.i < 3)
    && |s.lib| % 3 == (if s.sp.SCopy? then s.sp.i else 0)
  }

  /** A writer is about to broadcast. */
  predicate Signalling(s: State) {
    s.mutex.Some? && s.mutex.value.OneWriter? && s.mutex.value.t < |s.ws| && s.ws[s.mutex.value.t] == WSignal
  }

  /** The special writer stays parked only while it has nothing to take. */
  predicate ParkedOk(s: State) {
    s.sp == SWait ==> |s.queue| < 3 || Signalling(s)
  }

  /** Every letter put is stored, in transit or queued, in order. */
  ghost predicate HistoryOk(s: State) {
    && s.lib + Transit(s) + s.queue == Ring.Letters(s.put)
    && |s.put| == Count(s.ws, |s.ws|)
    && forall t: nat :: multiset(s.put)[t] == Times(s, t)
  }

  function Times(s: State, t: nat): nat { if t < |s.ws| && Past(s.ws[t]) then 1 else 0 }

  function Writing(s: State): nat { if SWriting(s.sp) then 1 else 0 }

  ghost predicate Inv(s: State) {
    && |s.ws| <= QUEUE_ELEMENTS && !s.failed
    && R.Inv(s.rw, Writing(s)) && MutexOk(s) && SpecialOk(s) && ParkedOk(s) && HistoryOk(s)
  }

  lemma {:induction false} InitInv(s: State)
    requires Init(s) && |s.ws| <= QUEUE_ELEMENTS
    ensures Inv(s)
  {
    R.InitInv(s.rw);
    CountAtMost(s.ws, |s.ws|);
    forall t: nat ensures multiset(s.put)[t] == Times(s, t) {
      if t < |s.ws| { assert s.ws[t] == WLock; }
    }
  }

  lemma {:induction false} Sizes(s: State)
    requires HistoryOk(s)
    ensures |s.lib| + |Transit(s)| + |s.queue| == |s.put| <= |s.ws|
  {
    assert |s.lib + Transit(s) + s.queue| == |s.put|;
    CountAtMost(s.ws, |s.ws|);
  }

  /** Writer t moves on without putting. */
  lemma {:induction false} HistorySame(s: State, z: State, t: nat)
    requires HistoryOk(s) && t < |s.ws| && |z.ws| == |s.ws| && z.ws == s.ws[t := z.ws[t]]
             && Past(z.ws[t]) == Past(s.ws[t])
    requires z.lib == s.lib && Transit(z) == Transit(s) && z.queue == s.queue && z.put == s.put
    ensures HistoryOk(z)
  {
    CountUpdate(s.ws, |s.ws|, t, z.ws[t]);
    forall i: nat ensures multiset(z.put)[i] == Times(z, i) { assert multiset(s.put)[i] == Times(s, i); }
  }

  lemma {:induction false} PutHistory(s: State, t: nat)
    requires HistoryOk(s) && t < |s.ws| && s.ws[t] == WPut && |s.queue| < QUEUE_ELEMENTS
    ensures HistoryOk(PutStep(s, t))
  {
    var z := PutStep(s, t);
    Ring.LettersAppend(s.put, t);
    CountUpdate(s.ws, |s.ws|, t, WSignal);
    assert z.lib + Transit(z) + z.queue == (s.lib + Transit(s) + s.queue) + [Ring.Letter(t)];
    forall i: nat ensures multiset(z.put)[i] == Times(z, i) { assert multiset(s.put)[i] == Times(s, i); }
  }

  lemma {:induction false} PutInv(s: State, t: nat)
    requires Inv(s) && t < |s.ws| && s.ws[t] == WPut
    ensures Inv(PutStep(s, t))
  {
    Sizes(s);
    CountAtMost(s.ws, |s.ws|);
    assert |s.put| < |s.ws|;
    PutHistory(s, t);
  }

  lemma {:induction false} WriterInv(s: State, t: nat)
    requires Inv(s) && t < |s.ws| && Enabled(s, Writer(t)) && s.ws[t] != WPut
    ensures Inv(WriterStep(s, t))
  {
    HistorySame(s, WriterStep(s, t), t);
  }

  /** The special writer moves on and only the split into stored, in transit and queued changes. */
  lemma {:induction false} HistorySplit(s: State, z: State)
    requires HistoryOk(s) && z.ws == s.ws && z.put == s.put
    requires z.lib + Transit(z) + z.queue == s.lib + Transit(s) + s.queue
    ensures HistoryOk(z)
  {
    forall i: nat ensures multiset(z.put)[i] == Times(z, i) { assert multiset(s.put)[i] == Times(s, i); }
  }

  lemma {:induction false} GetInv(s: State)
    requires Inv(s) && s.sp.SGet?
    ensures Inv(GetStep(s, s.sp.i))
  {
    var z := GetStep(s, s.sp.i);
    assert s.rcv + s.queue == z.rcv + z.queue;
    assert s.lib + Transit(s) + s.queue == s.lib + (s.rcv + s.queue);
    assert z.lib + Transit(z) + z.queue == s.lib + (z.rcv + z.queue);
    HistorySplit(s, z);
  }

  lemma {:induction false} CopyInv(s: State)
    requires Inv(s) && s.sp.SCopy?
    ensures Inv(CopyStep(s, s.sp.i))
  {
    var z := CopyStep(s, s.sp.i);
    Sizes(s);
    CopyHistory(s);
    HistorySplit(s, z);
    CopyControl(s);
  }

  lemma {:induction false} CopyControl(s: State)
    requires s.sp.SCopy? && |s.lib| < BOOKS && !s.failed
    requires R.Inv(s.rw, 1) && MutexOk(s) && SpecialOk(s)
    ensures var z := CopyStep(s, s.sp.i);
      !z.failed && R.Inv(z.rw, Writing(z)) && MutexOk(z) && SpecialOk(z) && ParkedOk(z)
  {
  }

  lemma {:induction false} CopyHistory(s: State)
    requires s.sp.SCopy? && s.sp.i < |s.rcv| == 3 && |s.lib| < BOOKS
    ensures var z := CopyStep(s, s.sp.i); z.lib + Transit(z) == s.lib + Transit(s)
  {
    CopyOne(s.lib, s.rcv, s.sp.i);
  }

  lemma {:induction false} CopyOne(lib: seq<int>, rcv: seq<int>, i: nat)
    requires i < |rcv| == 3
    ensures lib + rcv[i..] == lib + [rcv[i]] + rcv[i + 1..] && (i == 2 ==> rcv[i + 1..] == [])
  {
  }

  lemma {:induction false} SpecialInv(s: State)
    requires Inv(s) && Enabled(s, SpecialWriter) && !s.sp.SGet? && !s.sp.SCopy?
    ensures Inv(SpecialStep(s))
  {
    var z := SpecialStep(s);
    if s.sp == STake { R.WriterTakes(s.rw, Writing(s)); }
    if s.sp == SGive { R.WriterGives(s.rw, Writing(s)); }
    HistorySplit(s, z);
  }

  lemma {:induction false} NextInv(s: State, a: Action)
    requires Inv(s) && Enabled(s, a)
    ensures Inv(Next(s, a))
  {
    match a
    case Reader(t) =>
      R.NextInv(s.rw, t, Writing(s));
      HistorySplit(s, Next(s, a));
    case Writer(t) => if s.ws[t] == WPut { PutInv(s, t); } else { WriterInv(s, t); }
    case SpecialWriter =>
      if s.sp.SGet? { GetInv(s); } else if s.sp.SCopy? { CopyInv(s); } else { SpecialInv(s); }
    case Spurious => HistorySplit(s, Next(s, a));
  }

  lemma {:induction false} SameThreads(s: State, a: Action)
    requires Enabled(s, a)
    ensures |Next(s, a).ws| == |s.ws| && |Next(s, a).rw.rs| == |s.rw.rs|
  {
  }

  lemma {:induction false} RunThreads(states: seq<State>, acts: seq<Action>, i: nat)
    requires Run(states, acts) && i < |states|
    ensures |states[i].ws| == |states[0].ws| && |states[i].rw.rs| == |states[0].rw.rs|
  {
    if i > 0 {
      RunThreads(states, acts, i - 1);
      assert Went(states, acts, i - 1);
      SameThreads(states[i - 1], acts[i - 1]);
    }
  }

  lemma {:induction false} RunInv(states: seq<State>, acts: seq<Action>, i: nat)
    requires Run(states, acts) && i < |states| && |states[0].ws| <= QUEUE_ELEMENTS
    ensures Inv(states[i])
  {
    if i == 0 { InitInv(states[0]); }
    else {
      RunInv(states, acts, i - 1);
      WentInv(states, acts, i - 1);
    }
  }

  lemma {:induction false} WentInv(states: seq<State>, acts: seq<Action>, i: nat)
    requires Run(states, acts) && i < |acts| && Inv(states[i])
    ensures Inv(states[i + 1])
  {
    assert Went(states, acts, i);
    NextInv(states[i], acts[i]);
  }
}
