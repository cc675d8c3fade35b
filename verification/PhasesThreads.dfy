/**
 * The code of zad6's writer and reader, cut at its atomic points, run on the ring queue and
 * the shared variables; each piece does exactly its step of the state machine.
 */
module PhasesThreads {
  import opened Wrappers
  import Ring
  import opened Phases

  class Shared {
    const w: nat
    const r: nat
    const queue: Ring.Queue
    const pcs: array<Pc>
    var mutex: Option<nat>
    var writersMode: bool
    ghost var put: seq<nat>
    ghost var got: seq<int>
    ghost var failed: bool

    ghost function Config(): Config { Phases.Config(w, r) }

    ghost predicate Valid()
      reads this, queue
    {
      queue.Valid() && queue.cells.Length == QUEUE_ELEMENTS + 1 && pcs.Length == w + r
    }

    ghost function Abs(): State
      requires Valid()
      reads this, queue, queue.cells, pcs
    {
      State(pcs[..], mutex, writersMode, queue.Contents(), put, got, failed)
    }

    constructor (w: nat, r: nat)
      ensures Valid() && fresh(queue) && fresh(queue.cells) && fresh(pcs)
      ensures this.w == w && this.r == r && Init(Config(), Abs()) && Inv(Config(), Abs())
    {
      this.w, this.r := w, r;
      queue := new Ring.Queue(QUEUE_ELEMENTS + 1);
      pcs := new Pc[w + r](_ => Lock);
      mutex, writersMode := None, true;
      put, got, failed := [], [], false;
      new;
      InitInv(Config(), Abs());
    }

    method LockMutex(t: nat)
      requires Valid() && t < pcs.Length && pcs[t] == Lock && mutex == None
      modifies this`mutex, pcs
      ensures Valid() && Abs() == LockStep(old(Abs()), t)
    {
      mutex := Some(t);
      pcs[t] := Check;
    }

    /** The writer's loop: while (!writers_mode) pthread_cond_wait(&cond_empty, &mutex). */
    method WriterCheck(t: nat)
      requires Valid() && t < w && t < pcs.Length && pcs[t] == Check
      modifies this`mutex, pcs
      ensures Valid() && Abs() == CheckStep(Config(), old(Abs()), t)
    {
      if !writersMode {
        mutex := None;
        pcs[t] := Wait;
      } else {
        pcs[t] := Act;
      }
    }

    /** The reader's loop: while (writers_mode) pthread_cond_wait(&cond_full, &mutex). */
    method ReaderCheck(t: nat)
      requires Valid() && w <= t < pcs.Length && pcs[t] == Check
      modifies this`mutex, pcs
      ensures Valid() && Abs() == CheckStep(Config(), old(Abs()), t)
    {
      if writersMode {
        mutex := None;
        pcs[t] := Wait;
      } else {
        pcs[t] := Act;
      }
    }

    method WriterPut(t: nat)
      requires Valid() && t < pcs.Length && pcs[t] == Act
      modifies this`put, this`failed, queue, queue.cells, pcs
      ensures Valid() && Abs() == PutStep(old(Abs()), t)
    {
      var err := queue.QueuePut(Ring.Letter(t));
      if err == 0 { put := put + [t]; } else { failed := true; }
      pcs[t] := Signal;
    }

    method ReaderGet(t: nat) returns (c: int)
      requires Valid() && t < pcs.Length && pcs[t] == Act
      modifies this`got, this`failed, queue, pcs
      ensures Valid() && Abs() == GetStep(old(Abs()), t)
    {
      ghost var was := queue.Contents();
      var err;
      err, c := queue.QueueGet();
      if err == 0 {
        assert was[1..] == queue.Contents() && was[0] == c;
        got := got + [c];
      } else {
        failed := true;
      }
      pcs[t] := Signal;
    }

    /** pthread_cond_broadcast on the condition that threads lo..hi wait for. */
    method Broadcast(lo: nat, hi: nat)
      requires lo <= hi <= pcs.Length
      modifies pcs
      ensures pcs[..] == Wake(old(pcs[..]), lo, hi)
    {
      var i := lo;
      while i < hi
        invariant lo <= i <= hi && pcs[..] == Wake(old(pcs[..]), lo, i)
      {
        if pcs[i] == Wait { pcs[i] := Lock; }
        i := i + 1;
      }
    }

    method WriterSignal(t: nat)
      requires Valid() && t < w && pcs[t] == Signal
      modifies this`writersMode, pcs
      ensures Valid() && Abs() == WriterSignalStep(Config(), old(Abs()), t)
    {
      if queue.queueLen == QUEUE_ELEMENTS {
        writersMode := false;
        Broadcast(w, w + r);
      }
      pcs[t] := Unlock;
    }

    method ReaderSignal(t: nat)
      requires Valid() && t < pcs.Length && pcs[t] == Signal
      modifies this`writersMode, pcs
      ensures Valid() && Abs() == ReaderSignalStep(Config(), old(Abs()), t)
    {
      if queue.queueLen == 0 {
        writersMode := true;
        Broadcast(0, w);
      }
      pcs[t] := Unlock;
    }

    method UnlockMutex(t: nat)
      requires Valid() && t < pcs.Length && pcs[t] == Unlock
      modifies this`mutex, pcs
      ensures Valid() && Abs() == UnlockStep(old(Abs()), t)
    {
      mutex := None;
      pcs[t] := Done;
    }

    /** pthread_cond_wait returns without a signal. */
    method WakeUp(t: nat)
      requires Valid() && t < pcs.Length && pcs[t] == Wait
      modifies pcs
      ensures Valid() && Abs() == SpuriousStep(old(Abs()), t)
    {
      pcs[t] := Lock;
    }

    method SideStep(t: nat)
      requires Valid() && t < pcs.Length && (pcs[t] == Check || pcs[t] == Act || pcs[t] == Signal)
      modifies this, queue, queue.cells, pcs
      ensures Valid() && Abs() == Next(Config(), old(Abs()), Step(t))
    {
      if pcs[t] == Check {
        if t < w { WriterCheck(t); } else { ReaderCheck(t); }
      } else if pcs[t] == Act {
        if t < w { WriterPut(t); } else { var c := ReaderGet(t); }
      } else {
        if t < w { WriterSignal(t); } else { ReaderSignal(t); }
      }
    }

    /** Runs one enabled action in place; the invariant survives it. */
    method StepOf(a: Action)
      requires Valid() && Inv(Config(), Abs()) && Enabled(Abs(), a)
      modifies this, queue, queue.cells, pcs
      ensures Valid() && Abs() == Next(Config(), old(Abs()), a) && Inv(Config(), Abs())
    {
      NextInv(Config(), Abs(), a);
      var t := a.t;
      if a.Spurious? {
        WakeUp(t);
      } else if pcs[t] == Lock {
        LockMutex(t);
      } else if pcs[t] == Unlock {
        UnlockMutex(t);
      } else {
        SideStep(t);
      }
    }
  }
}
