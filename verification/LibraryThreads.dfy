/**
 * The code of zad2's writer and special writer, cut at its atomic points, run on the ring
 * queue, the library array and the shared variables.  Readers run the code of zad1.
 */
module LibraryThreads {
  import opened Wrappers
  import Ring
  import R = Readers
  import opened Library

  class Shared {
    const queue: Ring.Queue
    const books: array<int>
    var top: nat
    const rcv: array<int>
    const ws: array<WPc>
    var sp: SPc
    var mutex: Option<Owner>
    const room: R.Room
    ghost var taken: nat
    ghost var put: seq<nat>
    ghost var failed: bool

    ghost predicate Valid()
      reads this, queue
    {
      && queue.Valid() && queue.cells.Length == QUEUE_ELEMENTS + 1
      && books.Length == BOOKS && top <= BOOKS && rcv.Length == SWRITER_SIZE && taken <= SWRITER_SIZE
      && books != rcv && books != queue.cells && rcv != queue.cells
    }

    ghost function Abs(): State
      requires Valid()
      reads this, queue, queue.cells, books, rcv, ws, room, room.rs
    {
      State(room.Abs(), ws[..], sp, mutex, queue.Contents(), rcv[..taken], books[..top], put, failed)
    }

    constructor (readers: nat, writers: nat)
      ensures Valid() && fresh(queue) && fresh(queue.cells) && fresh(books) && fresh(rcv) && fresh(ws)
      ensures fresh(room) && fresh(room.rs)
      ensures Init(Abs()) && ws.Length == writers && room.rs.Length == readers
      ensures writers <= QUEUE_ELEMENTS ==> Inv(Abs())
    {
      queue := new Ring.Queue(QUEUE_ELEMENTS + 1);
      books := new int[BOOKS](_ => 0);
      rcv := new int[SWRITER_SIZE];
      ws := new WPc[writers](_ => WLock);
      top, sp, mutex, taken, put, failed := 0, SLock, None, 0, [], false;
      room := new R.Room(readers);
      new;
      if writers <= QUEUE_ELEMENTS { InitInv(Abs()); }
    }

    method WriterLock(t: nat)
      requires Valid() && t < ws.Length && ws[t] == WLock && mutex == None
      modifies this`mutex, ws
      ensures Valid() && Abs() == WriterStep(old(Abs()), t)
    {
      mutex := Some(OneWriter(t));
      ws[t] := WPut;
    }

    method WriterPut(t: nat)
      requires Valid() && t < ws.Length && ws[t] == WPut
      modifies this`put, this`failed, queue, queue.cells, ws
      ensures Valid() && Abs() == PutStep(old(Abs()), t)
    {
      var err := queue.QueuePut(Ring.Letter(t));
      if err == 0 { put := put + [t]; } else { failed := true; }
      ws[t] := WSignal;
    }

    method WriterSignal(t: nat)
      requires Valid() && t < ws.Length && ws[t] == WSignal
      modifies this`sp, ws
      ensures Valid() && Abs() == SignalStep(old(Abs()), t)
    {
      if queue.queueLen >= SWRITER_SIZE {
        if sp == SWait { sp := SLock; }
      }
      ws[t] := WUnlock;
    }

    method WriterUnlock(t: nat)
      requires Valid() && t < ws.Length && ws[t] == WUnlock
      modifies this`mutex, ws
      ensures Valid() && Abs() == WriterStep(old(Abs()), t)
    {
      mutex := None;
      ws[t] := WDone;
    }

    /** while (QueueLen < 3) pthread_cond_wait(&cond, &mutex). */
    method SpecialCheck()
      requires Valid() && sp == SCheck
      modifies this`sp, this`mutex
      ensures Valid() && Abs() == SpecialStep(old(Abs()))
    {
      if queue.queueLen < 3 {
        mutex := None;
        sp := SWait;
      } else {
        sp := SGet(0);
      }
    }

    /** The turn i of the loop that fills rcv. */
    method SpecialGet(i: nat)
      requires Valid() && sp == SGet(i) && i == taken < SWRITER_SIZE
      modifies this`sp, this`taken, this`failed, queue, rcv
      ensures Valid() && Abs() == GetStep(old(Abs()), i)
    {
      ghost var was := queue.Contents();
      var err, x := queue.QueueGet();
      if err == 0 {
        assert was[1..] == queue.Contents() && was[0] == x;
        rcv[i] := x;
        taken := taken + 1;
      } else {
        failed := true;
      }
      sp := if i + 1 < SWRITER_SIZE then SGet(i + 1) else SUnlock;
    }

    /** The turn i of the loop that fills the library. */
    method SpecialCopy(i: nat)
      requires Valid() && Inv(Abs()) && sp == SCopy(i)
      modifies this`sp, this`top, books
      ensures Valid() && Abs() == CopyStep(old(Abs()), i)
    {
      Sizes(Abs());
      books[top] := rcv[i];
      top := top + 1;
      sp := if i + 1 < SWRITER_SIZE then SCopy(i + 1) else SGive;
    }

    /** The locking statements of the special writer. */
    method SpecialSync()
      requires Valid() && Enabled(Abs(), SpecialWriter)
      requires sp == SLock || sp == SUnlock || sp == STake || sp == SGive
      modifies this`sp, this`mutex, this`taken, room`writerSem
      ensures Valid() && Abs() == SpecialStep(old(Abs()))
    {
      if sp == SLock {
        mutex := Some(Special);
        sp := SCheck;
      } else if sp == SUnlock {
        mutex := None;
        sp := STake;
      } else if sp == STake {
        room.TakeWriterSem();
        sp := SCopy(0);
      } else {
        room.GiveWriterSem();
        sp := SLock;
        taken := 0;
      }
    }

    method WriterStepOf(t: nat)
      requires Valid() && Enabled(Abs(), Writer(t))
      modifies this, queue, queue.cells, ws
      ensures Valid() && Abs() == Next(old(Abs()), Writer(t))
    {
      match ws[t] {
        case WLock => WriterLock(t);
        case WPut => WriterPut(t);
        case WSignal => WriterSignal(t);
        case WUnlock => WriterUnlock(t);
      }
    }

    method SpecialStepOf()
      requires Valid() && Inv(Abs()) && Enabled(Abs(), SpecialWriter)
      modifies this, queue, rcv, books, room`writerSem
      ensures Valid() && Abs() == Next(old(Abs()), SpecialWriter)
    {
      if sp == SCheck {
        SpecialCheck();
      } else if sp.SGet? {
        SpecialGet(sp.i);
      } else if sp.SCopy? {
        SpecialCopy(sp.i);
      } else {
        SpecialSync();
      }
    }

    /**
     * Runs one enabled action in place; the invariant survives it, and it is what keeps the
     * stores into rcv and into books inside their arrays.
     */
    method StepOf(a: Action)
      requires Valid() && Inv(Abs()) && Enabled(Abs(), a)
      modifies this, queue, queue.cells, books, rcv, ws, room, room.rs
      ensures Valid() && Abs() == Next(old(Abs()), a) && Inv(Abs())
    {
      NextInv(Abs(), a);
      match a {
        case Reader(t) => room.Step(t);
        case Writer(t) => WriterStepOf(t);
        case SpecialWriter => SpecialStepOf();
        case Spurious => sp := SLock;
      }
    }
  }
}
