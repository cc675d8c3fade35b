/**
 * The entry as the code has it: fields that the threads change in place.  Each method is
 * one atomic step or locked section of inode.c and is proved against the step functions.
 */
module RundownEntry {
  import opened Wrappers
  import opened Rundown
  import opened RundownInvariant
  import RundownSteps

  class Entry {
    const hasOpen: bool
    const hasRelease: bool
    var inUse: int
    var lock: Option<Tid>
    var openers: seq<File>
    var pdeos: map<File, Opener>
    var unload: Option<Tid>
    var threads: seq<Pc>
    var done: set<Tid>
    var files: map<File, FileState>
    ghost var phase: Phase
    ghost var releases: multiset<File>
    ghost var recorded: set<File>
    ghost var owner: map<File, Tid>
    ghost var fault: bool

    ghost function View(): State
      reads this
    {
      State(Pde(hasOpen, hasRelease, inUse, lock, openers, pdeos, unload),
            threads, done, files, phase, releases, recorded, owner, fault)
    }

    constructor (hasOpen: bool, hasRelease: bool, n: nat)
      requires n < MAX_THREADS
      ensures Init(View()) && Inv(View()) && |threads| == n
      ensures View().pde.hasOpen == hasOpen && View().pde.hasRelease == hasRelease
    {
      this.hasOpen, this.hasRelease := hasOpen, hasRelease;
      inUse, lock, openers, pdeos, unload := 0, None, [], map[], None;
      threads, done, files := seq(n, _ => Idle), {}, map[];
      phase, releases, recorded, owner, fault := NotStarted, multiset{}, {}, map[], false;
      new;
      InitInv(View());
    }

    method Move(t: Tid, pc: Pc)
      requires t < |threads|
      modifies this`threads
      ensures View() == Goto(old(View()), t, pc)
    {
      threads := threads[t := pc];
    }

    method ReturnFrom(t: Tid, f: File, fs: FileState)
      requires t < |threads|
      modifies this`threads, this`files
      ensures View() == Return(old(View()), t, f, fs)
    {
      files := files[f := fs];
      threads := threads[t := Idle];
    }

    /** use_pde: atomic_inc_unless_negative. */
    method UsePde() returns (ok: bool)
      modifies this`inUse
      ensures ok <==> old(inUse) >= 0
      ensures View() == if ok then Use(old(View())) else old(View())
    {
      ok := inUse >= 0;
      if ok { inUse := Wrap32(inUse + 1); }
    }

    method UnusePde() returns (last: bool)
      modifies this`inUse
      ensures View() == Unuse(old(View()))
      ensures last <==> inUse == BIAS
    {
      inUse := Wrap32(inUse - 1);
      last := inUse == BIAS;
    }

    /** complete() on the completion of thread u. */
    method CompleteFor(u: Tid)
      modifies this`done, this`fault
      ensures View() == Complete(old(View()), u)
    {
      if u < |threads| && Blocking(threads[u]) { done := done + {u}; } else { fault := true; }
    }

    method StartReadStep(t: Tid, f: File)
      requires t < |threads|
      modifies this
      ensures View() == ReadEnter(old(View()), t, f)
    {
      var ok := UsePde();
      Move(t, if ok then ReadHook(f) else Idle);
    }

    method EndReadStep(t: Tid, f: File)
      requires t < |threads|
      modifies this
      ensures View() == ReadLeave(old(View()), t, f)
    {
      var last := UnusePde();
      Move(t, if last then Signal(f, AfterRead) else Idle);
    }

    method StartOpenStep(t: Tid, f: File)
      requires t < |threads|
      modifies this
      ensures View() == OpenEnter(old(View()), t, f)
    {
      var ok := UsePde();
      if ok { Move(t, OpenHook(f)); } else { ReturnFrom(t, f, Closed); }
    }

    /** The locked list_add of proc_reg_open. */
    method RecordStep(t: Tid, f: File)
      requires t < |threads|
      modifies this
      ensures View() == OpenRecord(old(View()), t, f)
    {
      pdeos := pdeos[f := Opener(false, None)];
      openers := [f] + openers;
      recorded := recorded + {f};
      lock := None;
      Move(t, OpenUnuse(f, true));
    }

    method EndOpenStep(t: Tid, f: File, ok: bool)
      requires t < |threads|
      modifies this
      ensures View() == OpenLeave(old(View()), t, f, ok)
    {
      var last := UnusePde();
      if last { Move(t, Signal(f, AfterOpen(ok))); } else { ReturnFrom(t, f, Opened(ok)); }
    }

    method SignalStep(t: Tid, f: File, after: After)
      requires t < |threads|
      modifies this
      ensures View() == SignalUnload(old(View()), t, f, after)
    {
      match unload {
        case Some(u) => CompleteFor(u);
        case None => fault := true;
      }
      match after {
        case AfterRead => Move(t, Idle);
        case AfterOpen(ok) => ReturnFrom(t, f, Opened(ok));
      }
    }

    method AwaitStep(t: Tid, f: File, side: By)
      requires t < |threads|
      modifies this
      ensures View() == AwaitRelease(old(View()), t, f, side)
    {
      pdeos := pdeos[f := Opener(true, Some(t))];
      lock := None;
      Move(t, Wait(f, side));
    }

    method BeginStep(t: Tid, f: File, side: By)
      requires t < |threads| && f in pdeos
      modifies this
      ensures View() == BeginRelease(old(View()), t, f, side)
    {
      pdeos := pdeos[f := Opener(true, pdeos[f].c)];
      lock := None;
      owner := owner[f := t];
      releases := releases + multiset{f};
      Move(t, Release(f, side));
    }

    /** close_pdeo up to its unlock. */
    method ClosePdeoStep(t: Tid, f: File, side: By)
      requires t < |threads|
      modifies this
      ensures View() == ClosePdeo(old(View()), t, f, side)
    {
      if f !in pdeos {
        fault := true;
      } else if pdeos[f].closing {
        AwaitStep(t, f, side);
      } else {
        BeginStep(t, f, side);
      }
    }

    /** list_del: unlinks f from the list. */
    method Unlink(f: File)
      modifies this`openers
      ensures openers == Remove(old(openers), f)
    {
      var before, rest := [], openers;
      while rest != [] && rest[0] != f
        invariant Remove(openers, f) == before + Remove(rest, f)
        decreases |rest|
      {
        before, rest := before + [rest[0]], rest[1..];
      }
      openers := if rest == [] then before else before + rest[1..];
    }

    /** list_del and kfree. */
    method DropRecord(f: File)
      modifies this`openers, this`pdeos, this`owner
      ensures var s := old(View());
        View() == s.(pde := s.pde.(openers := Remove(s.pde.openers, f), pdeos := s.pde.pdeos - {f}),
                     owner := s.owner - {f})
    {
      Unlink(f);
      pdeos := pdeos - {f};
      owner := owner - {f};
    }

    /** close_pdeo after the release hook. */
    method FinishStep(t: Tid, f: File, side: By)
      requires t < |threads|
      modifies this
      ensures View() == FinishRelease(old(View()), t, f, side)
    {
      if f !in pdeos {
        fault := true;
        return;
      }
      if pdeos[f].c.Some? { CompleteFor(pdeos[f].c.value); }
      DropRecord(f);
      match side {
        case ByClose => lock := None; ReturnFrom(t, f, Closed);
        case ByRundown => Move(t, RunLoop);
      }
    }

    /** The list_for_each_entry search of proc_reg_release. */
    method FindOpener(f: File) returns (found: bool)
      ensures found <==> f in openers
    {
      var i := 0;
      while i < |openers|
        invariant i <= |openers| && f !in openers[..i]
      {
        if openers[i] == f { return true; }
        i := i + 1;
      }
      return false;
    }

    method CloseStep(t: Tid, f: File)
      requires t < |threads|
      modifies this
      ensures View() == CloseSearch(old(View()), t, f)
    {
      var found := FindOpener(f);
      if found {
        ClosePdeoStep(t, f, ByClose);
      } else {
        lock := None;
        ReturnFrom(t, f, Closed);
      }
    }

    method AddBiasStep(t: Tid)
      requires t < |threads|
      modifies this
      ensures View() == AddBias(old(View()), t)
    {
      inUse := Wrap32(inUse + BIAS);
      Move(t, if inUse != BIAS then RunWait else RunLock);
    }

    /** One turn of the drain loop of proc_entry_rundown. */
    method DrainStep(t: Tid)
      requires t < |threads|
      modifies this
      ensures View() == DrainFirst(old(View()), t)
    {
      if openers == [] {
        lock := None;
        phase := Returned;
        Move(t, Idle);
      } else {
        ClosePdeoStep(t, openers[0], ByRundown);
      }
    }

    method LockStep(t: Tid)
      requires t < |threads| && NeedsLock(threads[t]) && lock == None
      modifies this
      ensures View() == StepThread(old(View()), t, false)
    {
      lock := Some(t);
      Move(t, RundownSteps.Locked(threads[t]));
    }

    method WakeStep(t: Tid, pc: Pc)
      requires t < |threads|
      modifies this
      ensures View() == Woken(old(View()), t, pc)
    {
      done := done - {t};
      Move(t, pc);
    }

    method OpenStepOf(t: Tid, hookOk: bool)
      requires CanStep(View(), t)
      requires var pc := threads[t]; pc.OpenUse? || pc.OpenHook? || pc.OpenAdd? || pc.OpenUnuse? || pc.Signal?
      modifies this
      ensures View() == StepThread(old(View()), t, hookOk)
    {
      match threads[t] {
        case OpenUse(f) => StartOpenStep(t, f);
        case OpenHook(f) =>
          var ok := !hasOpen || hookOk;
          Move(t, if ok && hasRelease then OpenLock(f) else OpenUnuse(f, ok));
        case OpenAdd(f) => RecordStep(t, f);
        case OpenUnuse(f, ok) => EndOpenStep(t, f, ok);
        case Signal(f, after) => SignalStep(t, f, after);
      }
    }

    method CloseStepOf(t: Tid, hookOk: bool)
      requires CanStep(View(), t)
      requires threads[t].CloseFind? || threads[t].CloseUnlock?
      modifies this
      ensures View() == StepThread(old(View()), t, hookOk)
    {
      match threads[t] {
        case CloseFind(f) => CloseStep(t, f);
        case CloseUnlock(f) => lock := None; ReturnFrom(t, f, Closed);
      }
    }

    method PdeoStepOf(t: Tid, hookOk: bool)
      requires CanStep(View(), t)
      requires threads[t].Wait? || threads[t].Release? || threads[t].Finish?
      modifies this
      ensures View() == StepThread(old(View()), t, hookOk)
    {
      match threads[t] {
        case Wait(f, side) => WakeStep(t, Relock(f, side));
        case Release(f, side) => Move(t, Retake(f, side));
        case Finish(f, side) => FinishStep(t, f, side);
      }
    }

    method OtherStepOf(t: Tid, hookOk: bool)
      requires CanStep(View(), t)
      requires var pc := threads[t]; !(pc.OpenUse? || pc.OpenHook? || pc.OpenAdd? || pc.OpenUnuse? || pc.Signal?)
      requires var pc := threads[t]; !(pc.CloseFind? || pc.CloseUnlock? || pc.Wait? || pc.Release? || pc.Finish?)
      modifies this
      ensures View() == StepThread(old(View()), t, hookOk)
    {
      if NeedsLock(threads[t]) {
        LockStep(t);
        return;
      }
      match threads[t] {
        case ReadUse(f) => StartReadStep(t, f);
        case ReadHook(f) => Move(t, ReadUnuse(f));
        case ReadUnuse(f) => EndReadStep(t, f);
        case RunSet => unload := Some(t); Move(t, RunAdd);
        case RunAdd => AddBiasStep(t);
        case RunWait => WakeStep(t, RunLock);
        case RunLoop => DrainStep(t);
      }
    }

    /** Runs one enabled step of thread t in place; the joint invariant survives it. */
    method StepOf(t: Tid, hookOk: bool)
      requires Inv(View()) && CanStep(View(), t)
      modifies this
      ensures View() == StepThread(old(View()), t, hookOk)
      ensures Inv(View())
    {
      RundownSteps.NextInv(View(), Step(t, hookOk));
      var pc := threads[t];
      if pc.OpenUse? || pc.OpenHook? || pc.OpenAdd? || pc.OpenUnuse? || pc.Signal? {
        OpenStepOf(t, hookOk);
      } else if pc.CloseFind? || pc.CloseUnlock? {
        CloseStepOf(t, hookOk);
      } else if pc.Wait? || pc.Release? || pc.Finish? {
        PdeoStepOf(t, hookOk);
      } else {
        OtherStepOf(t, hookOk);
      }
    }

    /** Starts a call of an idle thread in place; the joint invariant survives it. */
    method StartOf(a: Action)
      requires Inv(View()) && Enabled(View(), a) && !a.Step?
      modifies this`threads, this`files, this`phase
      ensures View() == Next(old(View()), a) && Inv(View())
    {
      RundownSteps.NextInv(View(), a);
      match a {
        case StartRead(t, f) => Move(t, ReadUse(f));
        case StartOpen(t, f) => files := files[f := Opening(t)]; Move(t, OpenUse(f));
        case StartClose(t, f) => files := files[f := Closing(t)]; Move(t, CloseLock(f));
        case StartRundown(t) => phase := Running(t); Move(t, RunSet);
      }
    }

    /** Runs any enabled action in place, so a whole run of the state machine can be run on the entry. */
    method ActionOf(a: Action)
      requires Inv(View()) && Enabled(View(), a)
      modifies this
      ensures View() == Next(old(View()), a) && Inv(View())
    {
      match a {
        case Step(t, hookOk) => StepOf(t, hookOk);
        case _ => StartOf(a);
      }
    }
  }
}
