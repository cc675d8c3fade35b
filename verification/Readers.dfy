/**
 * The reader side of readers and writers over two semaphores (HamielecKarol/cw01/zad1/zad1.c
 * and zad2/zad2.c use the same code): any number of readers, the first of which takes
 * writerSem and the last of which gives it back.
 */
module Readers {
  import opened Wrappers

  // Where a reader is: before sem_wait(&readerSem), before readers_count++, before the test for
  // the first reader, before sem_wait(&writerSem), before sem_post(&readerSem), reading (before
  // the second sem_wait), before readers_count--, before the test for the last reader, before
  // sem_post(&writerSem), before the last sem_post, returned.
  datatype Pc = Enter | Incr | First | TakeWriter | Admit | Reading | Decr | Last | GiveWriter | Leave | Done

  // owner: the reader that holds readerSem, kept for the proof; no step looks at it.
  datatype Rw = Rw(rs: seq<Pc>, count: int, readerSem: int, writerSem: int, owner: Option<nat>)

  predicate Enabled(s: Rw, t: nat) {
    && t < |s.rs|
    && match s.rs[t]
       case Enter => s.readerSem > 0
       case Reading => s.readerSem > 0
       case TakeWriter => s.writerSem > 0
       case Done => false
       case _ => true
  }

  function Next(s: Rw, t: nat): Rw
    requires Enabled(s, t)
  {
    match s.rs[t]
    case Enter => s.(rs := s.rs[t := Incr], readerSem := s.readerSem - 1, owner := Some(t))
    case Incr => s.(rs := s.rs[t := First], count := s.count + 1)
    case First => s.(rs := s.rs[t := if s.count == 1 then TakeWriter else Admit])
    case TakeWriter => s.(rs := s.rs[t := Admit], writerSem := s.writerSem - 1)
    case Admit => s.(rs := s.rs[t := Reading], readerSem := s.readerSem + 1, owner := None)
    case Reading => s.(rs := s.rs[t := Decr], readerSem := s.readerSem - 1, owner := Some(t))
    case Decr => s.(rs := s.rs[t := Last], count := s.count - 1)
    case Last => s.(rs := s.rs[t := if s.count == 0 then GiveWriter else Leave])
    case GiveWriter => s.(rs := s.rs[t := Leave], writerSem := s.writerSem + 1)
    case _ => s.(rs := s.rs[t := Done], readerSem := s.readerSem + 1, owner := None)
  }

  predicate Init(s: Rw) {
    (forall t :: 0 <= t < |s.rs| ==> s.rs[t] == Enter) && s == Rw(s.rs, 0, 1, 1, None)
  }

  // ---------- counting ----------

  predicate Counted(pc: Pc) { pc == First || pc == TakeWriter || pc == Admit || pc == Reading || pc == Decr }

  function Weight(pc: Pc): nat { if Counted(pc) then 1 else 0 }

  /** The number of counted readers among the first n. */
  function Count(rs: seq<Pc>, n: nat): nat
    requires n <= |rs|
  {
    if n == 0 then 0 else Count(rs, n - 1) + Weight(rs[n - 1])
  }

  lemma {:induction false} CountUpdate(rs: seq<Pc>, n: nat, t: nat, pc: Pc)
    requires n <= |rs| && t < |rs|
    ensures Count(rs[t := pc], n) == Count(rs, n) + if t < n then Weight(pc) - Weight(rs[t]) else 0
  {
    if n > 0 { CountUpdate(rs, n - 1, t, pc); }
  }

  lemma {:induction false} CountTwo(rs: seq<Pc>, n: nat, t: nat, u: nat)
    requires t < n <= |rs| && u < n && t != u
    ensures Count(rs, n) >= Weight(rs[t]) + Weight(rs[u])
  {
    if t == n - 1 { CountOne(rs, n - 1, u); }
    else if u == n - 1 { CountOne(rs, n - 1, t); }
    else { CountTwo(rs, n - 1, t, u); }
  }

  lemma {:induction false} CountOne(rs: seq<Pc>, n: nat, t: nat)
    requires t < n <= |rs|
    ensures Count(rs, n) >= Weight(rs[t])
  {
    if t < n - 1 { CountOne(rs, n - 1, t); }
  }

  lemma {:induction false} CountNone(rs: seq<Pc>, n: nat)
    requires n <= |rs| && forall t :: 0 <= t < n ==> !Counted(rs[t])
    ensures Count(rs, n) == 0
  {
    if n > 0 { CountNone(rs, n - 1); }
  }

  // ---------- the invariant ----------

  /** Between a sem_wait and a sem_post of readerSem. */
  predicate Inside(pc: Pc) { pc != Enter && pc != Reading && pc != Done }

  /** The readers hold writerSem. */
  predicate Hold(s: Rw) {
    if s.owner == None || s.owner.value >= |s.rs| then s.count > 0
    else match s.rs[s.owner.value]
      case First => s.count > 1
      case TakeWriter => false
      case Admit => true
      case Decr => true
      case Last => true
      case GiveWriter => true
      case _ => s.count > 0
  }

  predicate OwnerOk(s: Rw) {
    && (s.owner.Some? ==> s.owner.value < |s.rs|)
    && s.readerSem == (if s.owner == None then 1 else 0)
    && forall t :: 0 <= t < |s.rs| ==> (Inside(s.rs[t]) <==> s.owner == Some(t))
  }

  /** What the owner has found out about the count. */
  predicate FoundOk(s: Rw) {
    s.owner.Some? && s.owner.value < |s.rs| ==>
      match s.rs[s.owner.value]
      case TakeWriter => s.count == 1
      case GiveWriter => s.count == 0
      case _ => true
  }

  /** `writing` threads of the writer side hold writerSem. */
  predicate Inv(s: Rw, writing: nat) {
    && OwnerOk(s) && FoundOk(s)
    && s.count == Count(s.rs, |s.rs|)
    && s.writerSem == 1 - writing - (if Hold(s) then 1 else 0) && s.writerSem >= 0
  }

  lemma {:induction false} InitInv(s: Rw)
    requires Init(s)
    ensures Inv(s, 0)
  {
    CountNone(s.rs, |s.rs|);
  }

  lemma {:induction false} OwnerNext(s: Rw, t: nat)
    requires OwnerOk(s) && Enabled(s, t)
    ensures OwnerOk(Next(s, t))
  {
  }

  lemma {:induction false} CountNext(s: Rw, t: nat)
    requires s.count == Count(s.rs, |s.rs|) && Enabled(s, t)
    ensures Next(s, t).count == Count(Next(s, t).rs, |s.rs|)
  {
    CountUpdate(s.rs, |s.rs|, t, Next(s, t).rs[t]);
  }

  /** What the readers hold of writerSem and what is left of it change together. */
  lemma {:induction false} HoldNext(s: Rw, t: nat)
    requires OwnerOk(s) && FoundOk(s) && Enabled(s, t) && s.count >= Weight(s.rs[t])
    ensures var z := Next(s, t);
      && FoundOk(z) && z.writerSem + (if Hold(z) then 1 else 0) == s.writerSem + (if Hold(s) then 1 else 0)
      && z.writerSem >= if s.writerSem < 0 then s.writerSem else 0
  {
  }

  lemma {:induction false} NextInv(s: Rw, t: nat, writing: nat)
    requires Inv(s, writing) && Enabled(s, t)
    ensures Inv(Next(s, t), writing)
  {
    OwnerNext(s, t);
    CountNext(s, t);
    CountOne(s.rs, |s.rs|, t);
    HoldNext(s, t);
  }

  /** While a reader reads, the readers hold writerSem and no writer does. */
  lemma {:induction false} ReadingHolds(s: Rw, t: nat, writing: nat)
    requires Inv(s, writing) && t < |s.rs| && s.rs[t] == Reading
    ensures Hold(s) && writing == 0
  {
    CountOne(s.rs, |s.rs|, t);
    if s.owner.Some? { CountTwo(s.rs, |s.rs|, t, s.owner.value); }
  }

  /** The writer side takes and gives back writerSem. */
  lemma {:induction false} WriterTakes(s: Rw, writing: nat)
    requires Inv(s, writing) && s.writerSem > 0
    ensures writing == 0 && Inv(s.(writerSem := s.writerSem - 1), 1)
  {
  }

  lemma {:induction false} WriterGives(s: Rw, writing: nat)
    requires Inv(s, writing) && writing > 0
    ensures writing == 1 && Inv(s.(writerSem := s.writerSem + 1), 0)
  {
  }

  /** If no reader can step, all have returned or the writer side holds writerSem. */
  lemma {:induction false} ReadersStuck(s: Rw, writing: nat)
    requires Inv(s, writing) && forall t :: 0 <= t < |s.rs| ==> !Enabled(s, t)
    ensures writing > 0 || (s == Rw(s.rs, 0, 1, 1, None) && forall t :: 0 <= t < |s.rs| ==> s.rs[t] == Done)
  {
    if s.owner.Some? {
      assert !Enabled(s, s.owner.value);
    } else {
      forall t | 0 <= t < |s.rs| ensures s.rs[t] == Done { assert !Enabled(s, t); }
      CountNone(s.rs, |s.rs|);
    }
  }

  // ---------- what a thread has done ----------

  /** How often a thread has come to x, going by the places it was at one after the other. */
  function Visits<T(==)>(places: seq<T>, x: T): nat {
    if |places| <= 1 then 0
    else Visits(places[..|places| - 1], x)
         + if places[|places| - 1] == x && places[|places| - 2] != x then 1 else 0
  }

  /** Still to come to the reading. */
  predicate ToRead(pc: Pc) { pc == Enter || pc == Incr || pc == First || pc == TakeWriter || pc == Admit }

  /** Where one step may take a reader: on, and into the reading and out of it, never past it. */
  predicate MovesOn(a: Pc, b: Pc) {
    if ToRead(a) then ToRead(b) || b == Reading else !ToRead(b) && b != Reading
  }

  /** A reader that is at each place in turn reads once, and only after that it is Done. */
  lemma {:induction false} ReadsOnce(places: seq<Pc>)
    requires places != [] && places[0] == Enter
    requires forall i :: 0 <= i < |places| - 1 ==> places[i + 1] == places[i] || MovesOn(places[i], places[i + 1])
    ensures Visits(places, Reading) == if ToRead(places[|places| - 1]) then 0 else 1
  {
    var n := |places|;
    if n > 1 {
      ReadsOnce(places[..n - 1]);
      assert places[n - 1] == places[n - 2] || MovesOn(places[n - 2], places[n - 1]);
    }
  }

  lemma {:induction false} ReaderMoves(s: Rw, t: nat, u: nat)
    requires Enabled(s, t) && u < |s.rs|
    ensures |Next(s, t).rs| == |s.rs|
    ensures var b := Next(s, t).rs[u]; b == s.rs[u] || MovesOn(s.rs[u], b)
  {
  }

  // ---------- work ----------

  function Rank(pc: Pc): nat {
    match pc
    case Enter => 10
    case Incr => 9
    case First => 8
    case TakeWriter => 7
    case Admit => 6
    case Reading => 5
    case Decr => 4
    case Last => 3
    case GiveWriter => 2
    case Leave => 1
    case Done => 0
  }

  function Work(rs: seq<Pc>, n: nat): nat
    requires n <= |rs|
  {
    if n == 0 then 0 else Work(rs, n - 1) + Rank(rs[n - 1])
  }

  lemma {:induction false} WorkUpdate(rs: seq<Pc>, n: nat, t: nat, pc: Pc)
    requires n <= |rs| && t < |rs|
    ensures Work(rs[t := pc], n) == Work(rs, n) + if t < n then Rank(pc) - Rank(rs[t]) else 0
  {
    if n > 0 { WorkUpdate(rs, n - 1, t, pc); }
  }

  lemma {:induction false} WorkDecreases(s: Rw, t: nat)
    requires Enabled(s, t)
    ensures Work(Next(s, t).rs, |s.rs|) < Work(s.rs, |s.rs|) && |Next(s, t).rs| == |s.rs|
  {
    WorkUpdate(s.rs, |s.rs|, t, Next(s, t).rs[t]);
  }

  lemma {:induction false} WorkBound(rs: seq<Pc>, n: nat)
    requires n <= |rs|
    ensures Work(rs, n) <= 10 * n
  {
    if n > 0 { WorkBound(rs, n - 1); }
  }

  // ---------- the code ----------

  /** The semaphores and the counter that the readers share. */
  class Room {
    var readersCount: int
    var readerSem: int
    var writerSem: int
    const rs: array<Pc>
    ghost var owner: Option<nat>

    ghost function Abs(): Rw
      reads this, rs
    {
      Rw(rs[..], readersCount, readerSem, writerSem, owner)
    }

    /** sem_init of both semaphores with 1, no thread started. */
    constructor (readers: nat)
      ensures fresh(rs) && rs.Length == readers && Init(Abs())
    {
      rs := new Pc[readers](_ => Enter);
      readersCount, readerSem, writerSem, owner := 0, 1, 1, None;
    }

    method Move(t: nat, pc: Pc)
      requires t < rs.Length
      modifies rs
      ensures rs[..] == old(rs[..])[t := pc]
    {
      rs[t] := pc;
    }

    /** sem_wait and sem_post on readerSem. */
    method SyncStep(t: nat)
      requires Enabled(Abs(), t)
      requires rs[t] == Enter || rs[t] == Admit || rs[t] == Reading || rs[t] == Leave
      modifies this`readerSem, this`owner, rs
      ensures Abs() == Next(old(Abs()), t)
    {
      var pc := rs[t];
      if pc == Enter || pc == Reading {
        readerSem, owner := readerSem - 1, Some(t);
        Move(t, if pc == Enter then Incr else Decr);
      } else {
        readerSem, owner := readerSem + 1, None;
        Move(t, if pc == Admit then Reading else Done);
      }
    }

    /** What reader t does while it holds readerSem. */
    method CountStep(t: nat)
      requires Enabled(Abs(), t)
      requires rs[t] == Incr || rs[t] == First || rs[t] == Decr || rs[t] == Last
      modifies this`readersCount, rs
      ensures Abs() == Next(old(Abs()), t)
    {
      var pc := rs[t];
      if pc == Incr {
        readersCount := readersCount + 1;
        Move(t, First);
      } else if pc == First {
        Move(t, if readersCount == 1 then TakeWriter else Admit);
      } else if pc == Decr {
        readersCount := readersCount - 1;
        Move(t, Last);
      } else {
        Move(t, if readersCount == 0 then GiveWriter else Leave);
      }
    }

    method TakeWriterSem()
      modifies this`writerSem
      ensures writerSem == old(writerSem) - 1
    {
      writerSem := writerSem - 1;
    }

    method GiveWriterSem()
      modifies this`writerSem
      ensures writerSem == old(writerSem) + 1
    {
      writerSem := writerSem + 1;
    }

    /** What reader t does up to its next atomic point. */
    method Step(t: nat)
      requires Enabled(Abs(), t)
      modifies this, rs
      ensures Abs() == Next(old(Abs()), t)
    {
      var pc := rs[t];
      if pc == TakeWriter {
        TakeWriterSem();
        Move(t, Admit);
      } else if pc == GiveWriter {
        GiveWriterSem();
        Move(t, Leave);
      } else if pc == Enter || pc == Admit || pc == Reading || pc == Leave {
        SyncStep(t);
      } else {
        CountStep(t);
      }
    }
  }
}
