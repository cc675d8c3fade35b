/** What zad2 guarantees on every run with at most fifteen writers and any number of readers. */
module LibraryTheorems {
  import Ring
  import R = Readers
  import opened Library

  /**
   * Every letter put is stored, in transit or queued, in the order of the puts; so the library
   * is a prefix of that order, and it never outgrows its array.
   */
  lemma {:induction false} PrefixOfPuts(states: seq<State>, acts: seq<Action>, i: nat)
    requires Run(states, acts) && i < |states| && |states[0].ws| <= QUEUE_ELEMENTS
    ensures var s := states[i];
      && !s.failed && s.lib + Transit(s) + s.queue == Ring.Letters(s.put)
      && s.lib <= Ring.Letters(s.put) && |s.lib| <= BOOKS
      && forall t: nat :: multiset(s.put)[t] == Times(s, t)
  {
    RunInv(states, acts, i);
    RunThreads(states, acts, i);
    StoredFirst(states[i]);
  }

  lemma {:induction false} StoredFirst(s: State)
    requires HistoryOk(s) && |s.ws| <= QUEUE_ELEMENTS
    ensures s.lib <= Ring.Letters(s.put) && |s.lib| <= BOOKS
  {
    Sizes(s);
    assert s.lib + Transit(s) + s.queue == s.lib + (Transit(s) + s.queue);
  }

  /** The places reader t was at in the states up to i. */
  ghost predicate ReaderPlaces(states: seq<State>, i: nat, t: nat, places: seq<R.Pc>) {
    && i < |states| && |places| == i + 1
    && forall k :: 0 <= k <= i ==> t < |states[k].rw.rs| && places[k] == states[k].rw.rs[t]
  }

  lemma {:induction false} ReaderWent(s: State, a: Action, t: nat)
    requires Enabled(s, a) && t < |s.rw.rs| && t < |Next(s, a).rw.rs|
    ensures var p, q := s.rw.rs[t], Next(s, a).rw.rs[t]; q == p || R.MovesOn(p, q)
  {
    if a.Reader? { R.ReaderMoves(s.rw, a.t, t); }
  }

  /** On every run a reader that has returned has read the library exactly once. */
  lemma {:induction false} ReaderReadsOnce(states: seq<State>, acts: seq<Action>, i: nat, t: nat, places: seq<R.Pc>)
    requires Run(states, acts) && ReaderPlaces(states, i, t, places)
    ensures places[i] == R.Done ==> R.Visits(places, R.Reading) == 1
    ensures R.Visits(places, R.Reading) <= 1
  {
    forall k | 0 <= k < i ensures places[k + 1] == places[k] || R.MovesOn(places[k], places[k + 1]) {
      assert Went(states, acts, k);
      ReaderWent(states[k], acts[k], t);
    }
    R.ReadsOnce(places);
  }

  /** The library changes only while no reader reads it. */
  lemma {:induction false} NoReaderDuringCopy(states: seq<State>, acts: seq<Action>, i: nat, t: nat)
    requires Run(states, acts) && i < |acts| && |states[0].ws| <= QUEUE_ELEMENTS
    requires states[i + 1].lib != states[i].lib && t < |states[i].rw.rs|
    ensures states[i].rw.rs[t] != R.Reading
  {
    var s := states[i];
    RunInv(states, acts, i);
    assert Went(states, acts, i);
    assert s.sp.SCopy?;
    if s.rw.rs[t] == R.Reading { R.ReadingHolds(s.rw, t, Writing(s)); }
  }

  /** No wake-up is lost: three queued letters leave the special writer parked only until the
      writer that holds the mutex broadcasts. */
  lemma {:induction false} NoLostWakeUp(states: seq<State>, acts: seq<Action>, i: nat)
    requires Run(states, acts) && i < |states| && |states[0].ws| <= QUEUE_ELEMENTS
    requires states[i].sp == SWait && |states[i].queue| >= SWRITER_SIZE
    ensures Signalling(states[i])
    ensures Next(states[i], Writer(states[i].mutex.value.t)).sp == SLock
  {
    RunInv(states, acts, i);
  }

  // ---------- where runs stop ----------

  ghost predicate Stuck(s: State) {
    forall a: Action :: Enabled(s, a) ==> a == Spurious
  }

  lemma {:induction false} StuckSpecial(s: State)
    requires Inv(s) && Stuck(s)
    ensures s.sp == SWait && s.mutex.None?
    ensures forall t :: 0 <= t < |s.ws| ==> s.ws[t] == WDone
    ensures forall t :: 0 <= t < |s.rw.rs| ==> s.rw.rs[t] == R.Done
  {
    assert !Enabled(s, SpecialWriter);
    forall t | 0 <= t < |s.rw.rs| ensures !R.Enabled(s.rw, t) { assert !Enabled(s, Reader(t)); }
    R.ReadersStuck(s.rw, Writing(s));
    assert s.mutex.Some? && s.mutex.value.OneWriter? ==> Enabled(s, Writer(s.mutex.value.t));
    forall t | 0 <= t < |s.ws| ensures s.ws[t] == WDone { assert !Enabled(s, Writer(t)); }
  }

  /**
   * No deadlock: a run can only stop with all writers and readers returned, the special writer
   * parked, all full triples of letters in the library and the rest in the queue.
   */
  lemma {:induction false} StuckMeansDone(states: seq<State>, acts: seq<Action>, i: nat)
    requires Run(states, acts) && i < |states| && |states[0].ws| <= QUEUE_ELEMENTS && Stuck(states[i])
    ensures var s, w := states[i], |states[0].ws|;
      && s.sp == SWait
      && (forall t :: 0 <= t < |s.ws| ==> s.ws[t] == WDone) && (forall t :: 0 <= t < |s.rw.rs| ==> s.rw.rs[t] == R.Done)
      && |s.put| == w && s.lib + s.queue == Ring.Letters(s.put) && |s.queue| == w % SWRITER_SIZE
  {
    var s := states[i];
    RunInv(states, acts, i);
    RunThreads(states, acts, i);
    StuckSpecial(s);
    StuckLetters(s);
  }

  lemma {:induction false} StuckLetters(s: State)
    requires HistoryOk(s) && SpecialOk(s) && ParkedOk(s) && s.sp == SWait && s.mutex.None?
    requires forall t :: 0 <= t < |s.ws| ==> s.ws[t] == WDone
    ensures |s.put| == |s.ws| && s.lib + s.queue == Ring.Letters(s.put) && |s.queue| == |s.ws| % SWRITER_SIZE
  {
    CountAtMost(s.ws, |s.ws|);
    assert Transit(s) == [] && s.lib + [] == s.lib;
    Sizes(s);
    Rest(|s.lib|, |s.queue|, |s.ws|);
  }

  lemma {:induction false} Rest(a: nat, q: nat, w: nat)
    requires a % SWRITER_SIZE == 0 && q < SWRITER_SIZE && a + q == w
    ensures q == w % SWRITER_SIZE
  {
  }

  // ---------- every run ends ----------

  function WriterRank(pc: WPc): nat {
    match pc
    case WLock => 6
    case WPut => 5
    case WSignal => 4
    case WUnlock => 1
    case WDone => 0
  }

  function WriterWork(ws: seq<WPc>, n: nat): nat
    requires n <= |ws|
  {
    if n == 0 then 0 else WriterWork(ws, n - 1) + WriterRank(ws[n - 1])
  }

  lemma {:induction false} WriterWorkUpdate(ws: seq<WPc>, n: nat, t: nat, pc: WPc)
    requires n <= |ws| && t < |ws|
    ensures WriterWork(ws[t := pc], n) == WriterWork(ws, n) + if t < n then WriterRank(pc) - WriterRank(ws[t]) else 0
  {
    if n > 0 { WriterWorkUpdate(ws, n - 1, t, pc); }
  }

  lemma {:induction false} WriterWorkBound(ws: seq<WPc>, n: nat)
    requires n <= |ws|
    ensures WriterWork(ws, n) <= 6 * n
  {
    if n > 0 { WriterWorkBound(ws, n - 1); }
  }

  /** Twelve steps for each letter still to be taken, and the way to the next one. */
  function SpecialRank(pc: SPc): nat {
    match pc
    case SUnlock => 9
    case STake => 8
    case SCopy(i) => if i < 3 then 7 - i else 4
    case SGive => 4
    case SLock => 3
    case SCheck => 2
    case SWait => 1
    case SGet(_) => 0
  }

  function Taken(s: State): nat { |s.lib| + |Transit(s)| }

  function Work(s: State): int {
    R.Work(s.rw.rs, |s.rw.rs|) + WriterWork(s.ws, |s.ws|) + SpecialRank(s.sp) + 12 * (|s.ws| - Taken(s))
  }

  lemma {:induction false} SpecialDecreases(s: State)
    requires Inv(s) && Enabled(s, SpecialWriter)
    ensures var z := SpecialStep(s); SpecialRank(z.sp) - 12 * Taken(z) < SpecialRank(s.sp) - 12 * Taken(s)
  {
    Sizes(s);
    if s.sp.SCopy? { CopyTaken(s); }
  }

  lemma {:induction false} CopyTaken(s: State)
    requires Inv(s) && s.sp.SCopy?
    ensures Taken(CopyStep(s, s.sp.i)) == Taken(s)
            && CopyStep(s, s.sp.i).sp == if s.sp.i < 2 then SCopy(s.sp.i + 1) else SGive
  {
    Sizes(s);
  }

  lemma {:induction false} WriterDecreases(s: State, t: nat)
    requires Enabled(s, Writer(t))
    ensures var z := WriterStep(s, t);
      && |z.ws| == |s.ws| && z.rw == s.rw && Taken(z) == Taken(s)
      && WriterWork(z.ws, |z.ws|) + SpecialRank(z.sp) < WriterWork(s.ws, |s.ws|) + SpecialRank(s.sp)
  {
    WriterMoves(s, t);
    WriterWorkUpdate(s.ws, |s.ws|, t, WriterStep(s, t).ws[t]);
  }

  /** A writer moves on by at least one, and by three when it wakes the special writer. */
  lemma {:induction false} WriterMoves(s: State, t: nat)
    requires Enabled(s, Writer(t))
    ensures var z := WriterStep(s, t);
      && |z.ws| == |s.ws| && z.ws == s.ws[t := z.ws[t]]
      && WriterRank(z.ws[t]) + SpecialRank(z.sp) < WriterRank(s.ws[t]) + SpecialRank(s.sp)
  {
  }

  lemma {:induction false} WorkDecreases(s: State, a: Action)
    requires Inv(s) && Enabled(s, a)
    ensures if a == Spurious then Work(Next(s, a)) == Work(s) + 2 else Work(Next(s, a)) < Work(s)
  {
    match a
    case Reader(t) => R.WorkDecreases(s.rw, t);
    case Writer(t) => WriterDecreases(s, t);
    case SpecialWriter => SpecialDecreases(s);
    case Spurious =>
  }

  function SpuriousCount(acts: seq<Action>, k: nat): nat
    requires k <= |acts|
  {
    if k == 0 then 0 else SpuriousCount(acts, k - 1) + if acts[k - 1] == Spurious then 1 else 0
  }

  lemma {:induction false} WorkOverRun(states: seq<State>, acts: seq<Action>, k: nat)
    requires Run(states, acts) && k <= |acts| && |states[0].ws| <= QUEUE_ELEMENTS
    ensures k + Work(states[k]) <= Work(states[0]) + 3 * SpuriousCount(acts, k)
  {
    if k > 0 {
      WorkOverRun(states, acts, k - 1);
      RunInv(states, acts, k - 1);
      assert Went(states, acts, k - 1);
      WorkDecreases(states[k - 1], acts[k - 1]);
    }
  }

  /**
   * Every run ends: without spurious wake-ups after at most 10 steps a reader, 18 a writer and
   * 3 more; each spurious wake-up adds at most three.
   */
  lemma {:induction false} RunsEnd(states: seq<State>, acts: seq<Action>)
    requires Run(states, acts) && |states[0].ws| <= QUEUE_ELEMENTS
    ensures |acts| <= 10 * |states[0].rw.rs| + 18 * |states[0].ws| + 3 + 3 * SpuriousCount(acts, |acts|)
  {
    var s, z := states[0], states[|acts|];
    WorkOverRun(states, acts, |acts|);
    RunInv(states, acts, |acts|);
    RunThreads(states, acts, |acts|);
    Sizes(z);
    R.WorkBound(s.rw.rs, |s.rw.rs|);
    WriterWorkBound(s.ws, |s.ws|);
  }

  // ---------- more writers than the queue holds ----------

  ghost predicate RunTo(states: seq<State>, acts: seq<Action>, start: State, end: State) {
    Run(states, acts) && states[0] == start && states[|acts|] == end
  }

  ghost predicate Reachable(start: State, end: State) {
    exists states, acts :: RunTo(states, acts, start, end)
  }

  lemma {:induction false} Extend(states: seq<State>, acts: seq<Action>, start: State, end: State, a: Action)
    returns (more: seq<State>, done: seq<Action>)
    requires RunTo(states, acts, start, end) && Enabled(end, a)
    ensures RunTo(more, done, start, Next(end, a))
  {
    more, done := states + [Next(end, a)], acts + [a];
    forall i | 0 <= i < |done| ensures Went(more, done, i) {
      if i < |acts| { assert Went(states, acts, i); }
    }
  }

  /** The first k writers have come and gone before any other thread started. */
  ghost predicate Filled(start: State, s: State, k: nat) {
    && |s.ws| == |start.ws| && k <= |s.ws| && s.sp == SLock && s.mutex.None? && |s.queue| == k && !s.failed
    && forall t :: k <= t < |s.ws| ==> s.ws[t] == WLock
  }

  lemma {:induction false} FillRun(start: State, k: nat) returns (states: seq<State>, acts: seq<Action>, end: State)
    requires Init(start) && k <= QUEUE_ELEMENTS && k <= |start.ws|
    ensures RunTo(states, acts, start, end) && Filled(start, end, k)
  {
    if k == 0 { return [start], [], start; }
    states, acts, end := FillRun(start, k - 1);
    var a := Writer(k - 1);
    states, acts := Extend(states, acts, start, end, a);
    end := Next(end, a);
    states, acts := Extend(states, acts, start, end, a);
    end := Next(end, a);
    states, acts := Extend(states, acts, start, end, a);
    end := Next(end, a);
    states, acts := Extend(states, acts, start, end, a);
    end := Next(end, a);
  }

  /**
   * No queue or library operation ever fails if and only if there are at most fifteen
   * writers; with more, the sixteenth letter is lost if the special writer is slow.
   */
  lemma {:induction false} FailsBeyondCapacity(start: State)
    requires Init(start)
    ensures (forall end: State :: Reachable(start, end) ==> !end.failed) <==> |start.ws| <= QUEUE_ELEMENTS
  {
    if |start.ws| <= QUEUE_ELEMENTS {
      forall end: State | Reachable(start, end) ensures !end.failed {
        var states, acts :| RunTo(states, acts, start, end);
        RunInv(states, acts, |acts|);
      }
    } else {
      var states, acts, end := FillRun(start, QUEUE_ELEMENTS);
      var a := Writer(QUEUE_ELEMENTS);
      states, acts := Extend(states, acts, start, end, a);
      end := Next(end, a);
      states, acts := Extend(states, acts, start, end, a);
      assert Reachable(start, Next(end, a)) && Next(end, a).failed;
    }
  }
}
