/**
 * What a single step does beside keeping the invariant: who it moves, and how it uses up
 * the work that is left.
 */
module RundownEffects {
  import opened Wrappers
  import opened Rundown
  import opened RundownInvariant
  import opened RundownSteps

  // Steps a thread may still take before its call returns, with the steps it may cause others.
  function Rank(pc: Pc): nat {
    match pc
    case Idle => 0
    case ReadUse(_) => 8
    case ReadHook(_) => 7
    case ReadUnuse(_) => 6
    case OpenUse(_) => 18
    case OpenHook(_) => 17
    case OpenLock(_) => 16
    case OpenAdd(_) => 15
    case OpenUnuse(_, _) => 6
    case Signal(_, _) => 5
    case CloseLock(_) => 5
    case CloseFind(_) => 4
    case CloseUnlock(_) => 1
    case Wait(_, side) => if side.ByClose? then 3 else 9
    case Relock(_, side) => if side.ByClose? then 2 else 12
    case Release(_, side) => if side.ByClose? then 3 else 9
    case Retake(_, side) => if side.ByClose? then 2 else 8
    case Finish(_, side) => if side.ByClose? then 1 else 7
    case RunSet => 14
    case RunAdd => 13
    case RunWait => 12
    case RunLock => 11
    case RunLoop => 10
  }

  function Pending(s: State): nat {
    8 * |s.pde.openers| + 4 * |s.done|
  }

  function Measure(s: State): nat {
    Sum(s.threads, Rank) + Pending(s)
  }

  // One step of thread t: no other thread moves, no recorded opener is forgotten, nobody
  // gets in once in_use is negative, the remover only moves on, only proc_reg_open records an
  // opener, and the work left shrinks.
  ghost predicate Effect(s: State, r: State, t: Tid) {
    && t < |s.threads| && |r.threads| == |s.threads|
    && r.threads == s.threads[t := r.threads[t]]
    && r.pde.hasRelease == s.pde.hasRelease
    && s.recorded <= r.recorded
    && (r.phase == s.phase || (r.phase == Returned && s.threads[t].RunLoop?))
    && (s.pde.inUse < 0 && Active(r.threads[t]) ==> Active(s.threads[t]))
    && (BeforeDrain(r.threads[t]) ==> s.threads[t].RunSet? || s.threads[t].RunAdd?)
    && (s.threads[t].OpenAdd? || forall f :: f in r.pde.openers ==> f in s.pde.openers)
    && Rank(r.threads[t]) + Pending(r) < Rank(s.threads[t]) + Pending(s)
  }

  // The remover has still to see the last caller leave, or to ask for it.
  predicate BeforeDrain(pc: Pc) {
    pc.RunSet? || pc.RunAdd? || pc.RunWait?
  }

  lemma ReadEnterEffect(s: State, t: Tid, f: File)
    requires t < |s.threads| && s.threads[t] == ReadUse(f)
    ensures Effect(s, ReadEnter(s, t, f), t)
  {
  }

  lemma ReadHookedEffect(s: State, t: Tid, f: File)
    requires t < |s.threads| && s.threads[t] == ReadHook(f)
    ensures Effect(s, Goto(s, t, ReadUnuse(f)), t)
  {
  }

  lemma ReadLeaveEffect(s: State, t: Tid, f: File)
    requires t < |s.threads| && s.threads[t] == ReadUnuse(f)
    ensures Effect(s, ReadLeave(s, t, f), t)
  {
  }

  lemma OpenEnterEffect(s: State, t: Tid, f: File)
    requires t < |s.threads| && s.threads[t] == OpenUse(f)
    ensures Effect(s, OpenEnter(s, t, f), t)
  {
  }

  lemma OpenHookedEffect(s: State, t: Tid, f: File, ok: bool)
    requires t < |s.threads| && s.threads[t] == OpenHook(f)
    ensures Effect(s, OpenHooked(s, t, f, ok), t)
  {
  }

  lemma OpenRecordEffect(s: State, t: Tid, f: File)
    requires t < |s.threads| && s.threads[t] == OpenAdd(f)
    ensures Effect(s, OpenRecord(s, t, f), t)
  {
  }

  lemma OpenLeaveEffect(s: State, t: Tid, f: File, ok: bool)
    requires t < |s.threads| && s.threads[t] == OpenUnuse(f, ok)
    ensures Effect(s, OpenLeave(s, t, f, ok), t)
  {
  }

  lemma SignalEffect(s: State, t: Tid, f: File, after: After, r: Tid)
    requires t < |s.threads| && s.threads[t] == Signal(f, after)
    requires s.pde.unload == Some(r) && r < |s.threads| && s.threads[r].RunWait?
    ensures Effect(s, SignalUnload(s, t, f, after), t)
  {
  }

  lemma LockEffect(s: State, t: Tid, pc: Pc)
    requires t < |s.threads| && s.threads[t] == pc && NeedsLock(pc)
    ensures Effect(s, Goto(SetLock(s, Some(t)), t, Locked(pc)), t)
  {
  }

  lemma ReleaseEffect(s: State, t: Tid, f: File, side: By)
    requires t < |s.threads| && s.threads[t] == Release(f, side)
    ensures Effect(s, Goto(s, t, Retake(f, side)), t)
  {
  }

  lemma AwaitEffect(s: State, t: Tid, f: File, side: By)
    requires Entering(s, t, f, side)
    ensures Effect(s, AwaitRelease(s, t, f, side), t)
  {
  }

  lemma BeginEffect(s: State, t: Tid, f: File, side: By)
    requires Entering(s, t, f, side) && f in s.pde.pdeos
    ensures Effect(s, BeginRelease(s, t, f, side), t)
  {
  }

  lemma EnterEffect(s: State, t: Tid, f: File, side: By)
    requires Entering(s, t, f, side) && f in s.pde.pdeos
    ensures Effect(s, ClosePdeo(s, t, f, side), t)
  {
    if s.pde.pdeos[f].closing { AwaitEffect(s, t, f, side); } else { BeginEffect(s, t, f, side); }
  }

  lemma CloseReturnEffect(s: State, t: Tid, f: File)
    requires t < |s.threads| && (s.threads[t] == CloseFind(f) || s.threads[t] == CloseUnlock(f))
    ensures Effect(s, Return(SetLock(s, None), t, f, Closed), t)
  {
  }

  lemma WokenEffect(s: State, t: Tid, f: File, side: By)
    requires t < |s.threads| && t in s.done && s.threads[t] == Wait(f, side)
    ensures Effect(s, Woken(s, t, Relock(f, side)), t)
  {
  }

  lemma DrainedEffect(s: State, t: Tid)
    requires t < |s.threads| && t in s.done && s.threads[t] == RunWait
    ensures Effect(s, Woken(s, t, RunLock), t)
  {
  }

  lemma FinishPending(s: State, t: Tid, f: File, side: By)
    requires t < |s.threads| && s.threads[t] == Finish(f, side)
    requires f in s.pde.pdeos && f in s.pde.openers && NoDup(s.pde.openers)
    ensures Pending(FinishRelease(s, t, f, side)) <= Pending(s) - 4
  {
    RemoveGone(s.pde.openers, f);
  }

  lemma FinishedEffect(s: State, r: State, t: Tid, f: File, side: By)
    requires Finished(s, r, t, f, side) && s.threads[t] == Finish(f, side)
    requires NoDup(s.pde.openers) && Pending(r) <= Pending(s) - 4
    ensures Effect(s, r, t)
  {
    RemoveGone(s.pde.openers, f);
  }

  lemma FinishEffect(s: State, t: Tid, f: File, side: By)
    requires Here(s, t, Finish(f, side)) && FileInv(s, f)
    requires f in s.pde.pdeos && f in s.pde.openers && NoDup(s.pde.openers)
    ensures Effect(s, FinishRelease(s, t, f, side), t)
  {
    FinishPending(s, t, f, side);
    FinishIs(s, t, f, side);
    FinishedEffect(s, FinishRelease(s, t, f, side), t, f, side);
  }

  lemma RunSetEffect(s: State, t: Tid)
    requires t < |s.threads| && s.threads[t] == RunSet
    ensures Effect(s, Goto(s.(pde := s.pde.(unload := Some(t))), t, RunAdd), t)
  {
  }

  lemma AddBiasEffect(s: State, t: Tid)
    requires t < |s.threads| && s.threads[t] == RunAdd
    ensures Effect(s, AddBias(s, t), t)
  {
  }

  lemma ReturnedEffect(s: State, t: Tid)
    requires t < |s.threads| && s.threads[t] == RunLoop && s.pde.openers == []
    ensures Effect(s, DrainFirst(s, t), t)
  {
  }

  predicate InOpen(pc: Pc) {
    pc.OpenUse? || pc.OpenHook? || pc.OpenLock? || pc.OpenAdd? || pc.OpenUnuse?
  }

  lemma OpenEffect(s: State, t: Tid, hookOk: bool)
    requires CanStep(s, t) && InOpen(s.threads[t])
    ensures Effect(s, StepThread(s, t, hookOk), t)
  {
    var pc := s.threads[t];
    match pc
    case OpenUse(f) => OpenEnterEffect(s, t, f);
    case OpenHook(f) => OpenHookedEffect(s, t, f, hookOk);
    case OpenLock(f) => LockEffect(s, t, pc);
    case OpenAdd(f) => OpenRecordEffect(s, t, f);
    case OpenUnuse(f, ok) => OpenLeaveEffect(s, t, f, ok);
  }

  lemma CallEffect(s: State, t: Tid, hookOk: bool)
    requires EntryInv(s) && CanStep(s, t) && ThreadInv(s, t)
    requires var pc := s.threads[t]; !InRundown(pc) && !InClosePdeo(pc) && !InOpen(pc)
    ensures Effect(s, StepThread(s, t, hookOk), t)
  {
    var pc := s.threads[t];
    match pc
    case ReadUse(f) => ReadEnterEffect(s, t, f);
    case ReadHook(f) => ReadHookedEffect(s, t, f);
    case ReadUnuse(f) => ReadLeaveEffect(s, t, f);
    case Signal(f, after) =>
      SignalTarget(s, t, f, after);
      SignalEffect(s, t, f, after, s.phase.tid);
    case CloseLock(f) => LockEffect(s, t, pc);
    case CloseFind(f) =>
      if f in s.pde.openers { EnterEffect(s, t, f, ByClose); } else { CloseReturnEffect(s, t, f); }
    case CloseUnlock(f) => CloseReturnEffect(s, t, f);
  }

  lemma PdeoEffect(s: State, t: Tid, hookOk: bool)
    requires EntryInv(s) && CanStep(s, t) && ThreadInv(s, t) && InClosePdeo(s.threads[t])
    requires FileInv(s, s.threads[t].file)
    ensures Effect(s, StepThread(s, t, hookOk), t)
  {
    var pc := s.threads[t];
    match pc
    case Wait(f, side) => WokenEffect(s, t, f, side);
    case Relock(f, side) => LockEffect(s, t, pc);
    case Release(f, side) => ReleaseEffect(s, t, f, side);
    case Retake(f, side) => LockEffect(s, t, pc);
    case Finish(f, side) => FinishEffect(s, t, f, side);
  }

  lemma RunEffect(s: State, t: Tid, hookOk: bool)
    requires EntryInv(s) && CanStep(s, t) && InRundown(s.threads[t]) && !InClosePdeo(s.threads[t])
    ensures Effect(s, StepThread(s, t, hookOk), t)
  {
    var pc := s.threads[t];
    match pc
    case RunSet => RunSetEffect(s, t);
    case RunAdd => AddBiasEffect(s, t);
    case RunWait => DrainedEffect(s, t);
    case RunLock => LockEffect(s, t, pc);
    case RunLoop =>
      if s.pde.openers == [] { ReturnedEffect(s, t); } else { EnterEffect(s, t, s.pde.openers[0], ByRundown); }
  }

  lemma StepEffect(s: State, t: Tid, hookOk: bool)
    requires Inv(s) && CanStep(s, t)
    ensures Effect(s, StepThread(s, t, hookOk), t)
  {
    Known(s, t, 0);
    if InClosePdeo(s.threads[t]) {
      Known(s, t, s.threads[t].file);
      PdeoEffect(s, t, hookOk);
    } else if InRundown(s.threads[t]) {
      RunEffect(s, t, hookOk);
    } else if InOpen(s.threads[t]) {
      OpenEffect(s, t, hookOk);
    } else {
      CallEffect(s, t, hookOk);
    }
  }

  /** The measure moves with the rank of the thread that steps. */
  lemma RankStep(s: State, r: State, t: Tid)
    requires Effect(s, r, t)
    ensures Measure(r) < Measure(s)
  {
    SumUpdate(s.threads, t, r.threads[t], Rank);
  }
}
