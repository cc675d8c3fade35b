/**
 * Readers and writers over two semaphores: HamielecKarol/cw01/zad1/zad1.c, for any number of
 * readers and writers.
 */
module ReadersWriters {
  import R = Readers

  // A writer: before sem_wait(&writerSem), writing (before sem_post), returned.
  datatype WPc = Enter | Writing | Done

  datatype State = State(rw: R.Rw, ws: seq<WPc>)

  datatype Action = Reader(t: nat) | Writer(t: nat)

  predicate Enabled(s: State, a: Action) {
    match a
    case Reader(t) => R.Enabled(s.rw, t)
    case Writer(t) => t < |s.ws| && (s.ws[t] == Writing || (s.ws[t] == Enter && s.rw.writerSem > 0))
  }

  function Next(s: State, a: Action): State
    requires Enabled(s, a)
  {
    match a
    case Reader(t) => s.(rw := R.Next(s.rw, t))
    case Writer(t) =>
      if s.ws[t] == Enter then State(s.rw.(writerSem := s.rw.writerSem - 1), s.ws[t := Writing])
      else State(s.rw.(writerSem := s.rw.writerSem + 1), s.ws[t := Done])
  }

  predicate Init(s: State) {
    R.Init(s.rw) && forall t :: 0 <= t < |s.ws| ==> s.ws[t] == Enter
  }

  ghost predicate Run(states: seq<State>, acts: seq<Action>) {
    && |states| == |acts| + 1 && Init(states[0])
    && forall i :: 0 <= i < |acts| ==> Went(states, acts, i)
  }

  ghost predicate Went(states: seq<State>, acts: seq<Action>, i: nat)
    requires |states| == |acts| + 1 && i < |acts|
  {
    Enabled(states[i], acts[i]) && states[i + 1] == Next(states[i], acts[i])
  }

  /** How many of the first n writers write. */
  function WritingCount(ws: seq<WPc>, n: nat): nat
    requires n <= |ws|
  {
    if n == 0 then 0 else WritingCount(ws, n - 1) + if ws[n - 1] == Writing then 1 else 0
  }

  lemma {:induction false} WritingUpdate(ws: seq<WPc>, n: nat, t: nat, pc: WPc)
    requires n <= |ws| && t < |ws|
    ensures WritingCount(ws[t := pc], n) == WritingCount(ws, n)
            + if t < n then (if pc == Writing then 1 else 0) - (if ws[t] == Writing then 1 else 0) else 0
  {
    if n > 0 { WritingUpdate(ws, n - 1, t, pc); }
  }

  lemma {:induction false} WritingSome(ws: seq<WPc>, n: nat)
    requires n <= |ws|
    ensures WritingCount(ws, n) > 0 <==> exists t :: 0 <= t < n && ws[t] == Writing
  {
    if n > 0 { WritingSome(ws, n - 1); }
  }

  lemma {:induction false} WritingTwo(ws: seq<WPc>, n: nat, t: nat, u: nat)
    requires t < u < n <= |ws| && ws[t] == Writing && ws[u] == Writing
    ensures WritingCount(ws, n) >= 2
  {
    if u < n - 1 { WritingTwo(ws, n - 1, t, u); } else { WritingSome(ws, n - 1); }
  }

  predicate Inv(s: State) {
    R.Inv(s.rw, WritingCount(s.ws, |s.ws|))
  }

  lemma {:induction false} InitInv(s: State)
    requires Init(s)
    ensures Inv(s)
  {
    WritingSome(s.ws, |s.ws|);
    R.InitInv(s.rw);
  }

  lemma {:induction false} NextInv(s: State, a: Action)
    requires Inv(s) && Enabled(s, a)
    ensures Inv(Next(s, a))
  {
    var writing := WritingCount(s.ws, |s.ws|);
    if a.Reader? {
      R.NextInv(s.rw, a.t, writing);
    } else {
      WritingUpdate(s.ws, |s.ws|, a.t, Next(s, a).ws[a.t]);
      if s.ws[a.t] == Enter {
        R.WriterTakes(s.rw, writing);
      } else {
        WritingSome(s.ws, |s.ws|);
        R.WriterGives(s.rw, writing);
      }
    }
  }

  lemma {:induction false} RunInv(states: seq<State>, acts: seq<Action>, i: nat)
    requires Run(states, acts) && i < |states|
    ensures Inv(states[i])
  {
    if i == 0 {
      InitInv(states[0]);
    } else {
      RunInv(states, acts, i - 1);
      assert Went(states, acts, i - 1);
      NextInv(states[i - 1], acts[i - 1]);
    }
  }

  /** While a reader reads no writer writes, and at most one writer writes at a time. */
  lemma {:induction false} Exclusion(states: seq<State>, acts: seq<Action>, i: nat, t: nat, u: nat)
    requires Run(states, acts) && i < |states| && t < |states[i].ws| && states[i].ws[t] == Writing
    ensures u < |states[i].ws| && states[i].ws[u] == Writing ==> u == t
    ensures u < |states[i].rw.rs| ==> states[i].rw.rs[u] != R.Reading
  {
    var s := states[i];
    var n := |s.ws|;
    RunInv(states, acts, i);
    WritingSome(s.ws, n);
    if u < n && s.ws[u] == Writing && u != t { WritingTwo(s.ws, n, if t < u then t else u, if t < u then u else t); }
    if u < |s.rw.rs| && s.rw.rs[u] == R.Reading { R.ReadingHolds(s.rw, u, WritingCount(s.ws, n)); }
  }

  predicate AllDone(s: State) {
    && (forall t :: 0 <= t < |s.rw.rs| ==> s.rw.rs[t] == R.Done)
    && (forall t :: 0 <= t < |s.ws| ==> s.ws[t] == Done)
  }

  /** No deadlock: without an enabled step all threads have returned and all is as at the start. */
  lemma {:induction false} StuckMeansDone(states: seq<State>, acts: seq<Action>, i: nat)
    requires Run(states, acts) && i < |states| && forall a: Action :: !Enabled(states[i], a)
    ensures AllDone(states[i])
    ensures states[i].rw.count == 0 && states[i].rw.readerSem == 1 && states[i].rw.writerSem == 1
  {
    var s := states[i];
    RunInv(states, acts, i);
    forall t | 0 <= t < |s.rw.rs| ensures !R.Enabled(s.rw, t) { assert !Enabled(s, Reader(t)); }
    forall t | 0 <= t < |s.ws| ensures s.ws[t] != Writing && (s.ws[t] == Enter ==> s.rw.writerSem <= 0) {
      assert !Enabled(s, Writer(t));
    }
    WritingSome(s.ws, |s.ws|);
    R.ReadersStuck(s.rw, WritingCount(s.ws, |s.ws|));
  }

  // ---------- what a thread has done ----------

  /** The places reader t was at in the states up to i. */
  ghost predicate ReaderPlaces(states: seq<State>, i: nat, t: nat, places: seq<R.Pc>) {
    && i < |states| && |places| == i + 1
    && forall k :: 0 <= k <= i ==> t < |states[k].rw.rs| && places[k] == states[k].rw.rs[t]
  }

  ghost predicate WriterPlaces(states: seq<State>, i: nat, t: nat, places: seq<WPc>) {
    && i < |states| && |places| == i + 1
    && forall k :: 0 <= k <= i ==> t < |states[k].ws| && places[k] == states[k].ws[t]
  }

  /** On every run a reader that has returned has read exactly once. */
  lemma {:induction false} ReaderReadsOnce(states: seq<State>, acts: seq<Action>, i: nat, t: nat, places: seq<R.Pc>)
    requires Run(states, acts) && ReaderPlaces(states, i, t, places)
    ensures places[i] == R.Done ==> R.Visits(places, R.Reading) == 1
    ensures R.Visits(places, R.Reading) <= 1
  {
    forall k | 0 <= k < i ensures places[k + 1] == places[k] || R.MovesOn(places[k], places[k + 1]) {
      assert Went(states, acts, k);
      if acts[k].Reader? { R.ReaderMoves(states[k].rw, acts[k].t, t); }
    }
    R.ReadsOnce(places);
  }

  /** A writer stays where it is, begins to write, or is done with it. */
  predicate WriterGoes(a: WPc, b: WPc) {
    a == b || (a == Enter && b == Writing) || (a == Writing && b == Done)
  }

  lemma {:induction false} WritesOnce(places: seq<WPc>)
    requires places != [] && places[0] == Enter
    requires forall k :: 0 <= k < |places| - 1 ==> WriterGoes(places[k], places[k + 1])
    ensures R.Visits(places, Writing) == if places[|places| - 1] == Enter then 0 else 1
  {
    var n := |places|;
    if n > 1 {
      WritesOnce(places[..n - 1]);
      assert places[n - 2 + 1] == places[n - 1];
    }
  }

  /** On every run a writer that has returned has written exactly once. */
  lemma {:induction false} WriterWritesOnce(states: seq<State>, acts: seq<Action>, i: nat, t: nat, places: seq<WPc>)
    requires Run(states, acts) && WriterPlaces(states, i, t, places)
    ensures places[i] == Done ==> R.Visits(places, Writing) == 1
    ensures R.Visits(places, Writing) <= 1
  {
    forall k | 0 <= k < i ensures WriterGoes(places[k], places[k + 1]) { assert Went(states, acts, k); }
    WritesOnce(places);
  }

  // ---------- every run ends ----------

  function Rank(pc: WPc): nat { if pc == Enter then 2 else if pc == Writing then 1 else 0 }

  function WriterWork(ws: seq<WPc>, n: nat): nat
    requires n <= |ws|
  {
    if n == 0 then 0 else WriterWork(ws, n - 1) + Rank(ws[n - 1])
  }

  lemma {:induction false} WriterWorkUpdate(ws: seq<WPc>, n: nat, t: nat, pc: WPc)
    requires n <= |ws| && t < |ws|
    ensures WriterWork(ws[t := pc], n) == WriterWork(ws, n) + if t < n then Rank(pc) - Rank(ws[t]) else 0
  {
    if n > 0 { WriterWorkUpdate(ws, n - 1, t, pc); }
  }

  lemma {:induction false} WriterWorkBound(ws: seq<WPc>, n: nat)
    requires n <= |ws|
    ensures WriterWork(ws, n) <= 2 * n
  {
    if n > 0 { WriterWorkBound(ws, n - 1); }
  }

  function Work(s: State): nat { R.Work(s.rw.rs, |s.rw.rs|) + WriterWork(s.ws, |s.ws|) }

  lemma {:induction false} WorkDecreases(s: State, a: Action)
    requires Enabled(s, a)
    ensures Work(Next(s, a)) < Work(s)
  {
    if a.Reader? { R.WorkDecreases(s.rw, a.t); }
    else { WriterWorkUpdate(s.ws, |s.ws|, a.t, Next(s, a).ws[a.t]); }
  }

  lemma {:induction false} WorkOverRun(states: seq<State>, acts: seq<Action>, k: nat)
    requires Run(states, acts) && k <= |acts|
    ensures k + Work(states[k]) <= Work(states[0])
  {
    if k > 0 {
      WorkOverRun(states, acts, k - 1);
      assert Went(states, acts, k - 1);
      WorkDecreases(states[k - 1], acts[k - 1]);
    }
  }

  /** Every run ends after at most 10 steps for each reader and 2 for each writer. */
  lemma {:induction false} RunsEnd(states: seq<State>, acts: seq<Action>)
    requires Run(states, acts)
    ensures |acts| <= 10 * |states[0].rw.rs| + 2 * |states[0].ws|
  {
    WorkOverRun(states, acts, |acts|);
    R.WorkBound(states[0].rw.rs, |states[0].rw.rs|);
    WriterWorkBound(states[0].ws, |states[0].ws|);
  }

  // ---------- the code ----------

  class Shared {
    const room: R.Room
    const ws: array<WPc>

    ghost function Abs(): State
      reads room, room.rs, ws
    {
      State(room.Abs(), ws[..])
    }

    constructor (readers: nat, writers: nat)
      ensures fresh(room) && fresh(room.rs) && fresh(ws)
      ensures room.rs.Length == readers && ws.Length == writers && Init(Abs()) && Inv(Abs())
    {
      room := new R.Room(readers);
      ws := new WPc[writers](_ => Enter);
      new;
      InitInv(Abs());
    }

    method WriterStep(t: nat)
      requires Enabled(Abs(), Writer(t))
      modifies room`writerSem, ws
      ensures Abs() == Next(old(Abs()), Writer(t))
    {
      if ws[t] == Enter {
        room.TakeWriterSem();
        ws[t] := Writing;
      } else {
        room.GiveWriterSem();
        ws[t] := Done;
      }
    }

    /** Runs one enabled action in place; the invariant survives it. */
    method StepOf(a: Action)
      requires Inv(Abs()) && Enabled(Abs(), a)
      modifies room, room.rs, ws
      ensures Abs() == Next(old(Abs()), a) && Inv(Abs())
    {
      NextInv(Abs(), a);
      match a {
        case Reader(t) => room.Step(t);
        case Writer(t) => WriterStep(t);
      }
    }
  }
}
