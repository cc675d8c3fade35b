/**
 * Rundown of a /proc entry: HamielecKarol/cw05/proc/inode.c.
 *
 * Any number of threads open, read and close files of one entry while one thread removes
 * the entry.  A state holds the shared fields of the entry, one program counter per thread
 * and the auxiliary history the properties talk about.  An action is one atomic step of one
 * thread: an atomic operation on in_use, taking the lock, or one locked section up to
 * its unlock.
 */
module Rundown {
  import opened Wrappers

  type Tid = nat
  type File = nat

  // -1U<<31 seen as a 32-bit int.
  const BIAS: int := -0x8000_0000
  const MAX_THREADS: nat := 0x8000_0000

  /** The value a 32-bit atomic counter holds after an addition. */
  function Wrap32(x: int): int {
    (x + 0x8000_0000) % 0x1_0000_0000 - 0x8000_0000
  }

  datatype Opener = Opener(closing: bool, c: Option<Tid>)

  // The fields of struct proc_dir_entry that the protocol uses.  An opener record is named
  // by its file; a completion on a stack is named by the thread that waits for it.
  datatype Pde = Pde(
    hasOpen: bool,
    hasRelease: bool,
    inUse: int,
    lock: Option<Tid>,
    openers: seq<File>,
    pdeos: map<File, Opener>,
    unload: Option<Tid>)

  datatype By = ByClose | ByRundown
  datatype After = AfterRead | AfterOpen(ok: bool)

  datatype Pc =
    | Idle
    // proc_reg_read
    | ReadUse(file: File) | ReadHook(file: File) | ReadUnuse(file: File)
    // proc_reg_open
    | OpenUse(file: File) | OpenHook(file: File) | OpenLock(file: File) | OpenAdd(file: File)
    | OpenUnuse(file: File, ok: bool)
    // unuse_pde after the decrement that reached BIAS
    | Signal(file: File, after: After)
    // proc_reg_release
    | CloseLock(file: File) | CloseFind(file: File) | CloseUnlock(file: File)
    // close_pdeo
    | Wait(file: File, side: By) | Relock(file: File, side: By)
    | Release(file: File, side: By) | Retake(file: File, side: By) | Finish(file: File, side: By)
    // proc_entry_rundown
    | RunSet | RunAdd | RunWait | RunLock | RunLoop

  // What the VFS knows about a file that was ever opened.
  datatype FileState = Opening(tid: Tid) | Open | Closing(tid: Tid) | Closed

  datatype Phase = NotStarted | Running(tid: Tid) | Returned

  // Auxiliary history: releases counts the release hooks started for a file, recorded is
  // the set of files ever put on the opener list, owner names the thread that set closing.
  // fault is set by a use after free or a signal to a stack that is gone.
  datatype State = State(
    pde: Pde,
    threads: seq<Pc>,
    done: set<Tid>,
    files: map<File, FileState>,
    phase: Phase,
    releases: multiset<File>,
    recorded: set<File>,
    owner: map<File, Tid>,
    fault: bool)

  datatype Action =
    | StartRead(tid: Tid, file: File)
    | StartOpen(tid: Tid, file: File)
    | StartClose(tid: Tid, file: File)
    | StartRundown(tid: Tid)
    | Step(tid: Tid, hookOk: bool)

  // ---------- program counter classes ----------

  /** The thread has raised in_use and not lowered it yet. */
  predicate Active(pc: Pc) {
    pc.ReadHook? || pc.ReadUnuse? || pc.OpenHook? || pc.OpenLock? || pc.OpenAdd? || pc.OpenUnuse?
  }

  /** A module hook is running. */
  predicate InHook(pc: Pc) {
    pc.ReadHook? || pc.OpenHook? || pc.Release?
  }

  predicate Critical(pc: Pc) {
    pc.OpenAdd? || pc.CloseFind? || pc.CloseUnlock? || pc.Finish? || pc.RunLoop?
  }

  predicate NeedsLock(pc: Pc) {
    pc.OpenLock? || pc.CloseLock? || pc.Relock? || pc.Retake? || pc.RunLock?
  }

  predicate Blocking(pc: Pc) {
    pc.Wait? || pc.RunWait?
  }

  predicate Reading(pc: Pc, f: File) {
    (pc.ReadUse? || pc.ReadHook? || pc.ReadUnuse? || (pc.Signal? && pc.after.AfterRead?)) && pc.file == f
  }

  predicate Releasing(pc: Pc, f: File) {
    (pc.Release? || pc.Retake? || pc.Finish?) && pc.file == f
  }

  predicate InRundown(pc: Pc) {
    pc.RunSet? || pc.RunAdd? || pc.RunWait? || pc.RunLock? || pc.RunLoop?
    || ((pc.Wait? || pc.Relock? || pc.Release? || pc.Retake? || pc.Finish?) && pc.side.ByRundown?)
  }

  // ---------- steps ----------

  function Goto(s: State, t: Tid, pc: Pc): State
    requires t < |s.threads|
  {
    s.(threads := s.threads[t := pc])
  }

  /** complete(): signals the completion on the stack of thread u, which must be waiting. */
  function Complete(s: State, u: Tid): State {
    if u < |s.threads| && Blocking(s.threads[u]) then s.(done := s.done + {u}) else s.(fault := true)
  }

  /** Returns from the VFS call of thread t on file f, leaving the file in state fs. */
  function Return(s: State, t: Tid, f: File, fs: FileState): State
    requires t < |s.threads|
  {
    Goto(s, t, Idle).(files := s.files[f := fs])
  }

  function Opened(ok: bool): FileState {
    if ok then Open else Closed
  }

  function Remove(openers: seq<File>, f: File): seq<File> {
    if openers == [] then []
    else if openers[0] == f then openers[1..]
    else [openers[0]] + Remove(openers[1..], f)
  }

  /** close_pdeo of the party that finds closing set: it leaves its completion and waits. */
  function AwaitRelease(s: State, t: Tid, f: File, side: By): State
    requires t < |s.threads|
  {
    Goto(s.(pde := s.pde.(pdeos := s.pde.pdeos[f := Opener(true, Some(t))], lock := None)), t, Wait(f, side))
  }

  /** close_pdeo of the first party: it sets closing and runs the hook. */
  function BeginRelease(s: State, t: Tid, f: File, side: By): State
    requires t < |s.threads| && f in s.pde.pdeos
  {
    Goto(s.(pde := s.pde.(pdeos := s.pde.pdeos[f := Opener(true, s.pde.pdeos[f].c)], lock := None),
            owner := s.owner[f := t],
            releases := s.releases + multiset{f}), t, Release(f, side))
  }

  /** close_pdeo up to its unlock, entered with the lock held. */
  function ClosePdeo(s: State, t: Tid, f: File, side: By): State
    requires t < |s.threads|
  {
    if f !in s.pde.pdeos then s.(fault := true)
    else if s.pde.pdeos[f].closing then AwaitRelease(s, t, f, side)
    else BeginRelease(s, t, f, side)
  }

  /** close_pdeo after the release hook, with the lock held again. */
  function FinishRelease(s: State, t: Tid, f: File, side: By): State
    requires t < |s.threads|
  {
    if f !in s.pde.pdeos then
      s.(fault := true)
    else
      var s1 := match s.pde.pdeos[f].c case Some(w) => Complete(s, w) case None => s;
      var s2 := s1.(pde := s1.pde.(openers := Remove(s1.pde.openers, f), pdeos := s1.pde.pdeos - {f}),
                    owner := s1.owner - {f});
      match side
      case ByClose => Return(s2.(pde := s2.pde.(lock := None)), t, f, Closed)
      case ByRundown => Goto(s2, t, RunLoop)
  }

  /** The thread after atomic_dec_return in unuse_pde. */
  function Unuse(s: State): State {
    s.(pde := s.pde.(inUse := Wrap32(s.pde.inUse - 1)))
  }

  function Use(s: State): State {
    s.(pde := s.pde.(inUse := Wrap32(s.pde.inUse + 1)))
  }

  function SetLock(s: State, lock: Option<Tid>): State {
    s.(pde := s.pde.(lock := lock))
  }

  // proc_reg_read
  function ReadEnter(s: State, t: Tid, f: File): State
    requires t < |s.threads|
  {
    if s.pde.inUse < 0 then Goto(s, t, Idle) else Goto(Use(s), t, ReadHook(f))
  }

  function ReadLeave(s: State, t: Tid, f: File): State
    requires t < |s.threads|
  {
    var s1 := Unuse(s);
    Goto(s1, t, if s1.pde.inUse == BIAS then Signal(f, AfterRead) else Idle)
  }

  // proc_reg_open
  function OpenEnter(s: State, t: Tid, f: File): State
    requires t < |s.threads|
  {
    if s.pde.inUse < 0 then Return(s, t, f, Closed) else Goto(Use(s), t, OpenHook(f))
  }

  function OpenHooked(s: State, t: Tid, f: File, hookOk: bool): State
    requires t < |s.threads|
  {
    var ok := !s.pde.hasOpen || hookOk;
    Goto(s, t, if ok && s.pde.hasRelease then OpenLock(f) else OpenUnuse(f, ok))
  }

  function OpenRecord(s: State, t: Tid, f: File): State
    requires t < |s.threads|
  {
    Goto(s.(pde := s.pde.(openers := [f] + s.pde.openers, pdeos := s.pde.pdeos[f := Opener(false, None)], lock := None),
            recorded := s.recorded + {f}), t, OpenUnuse(f, true))
  }

  function OpenLeave(s: State, t: Tid, f: File, ok: bool): State
    requires t < |s.threads|
  {
    var s1 := Unuse(s);
    if s1.pde.inUse == BIAS then Goto(s1, t, Signal(f, AfterOpen(ok))) else Return(s1, t, f, Opened(ok))
  }

  /** complete(pde_unload_completion) in unuse_pde, and the return from the hook caller. */
  function SignalUnload(s: State, t: Tid, f: File, after: After): State
    requires t < |s.threads|
  {
    var s1 := match s.pde.unload case Some(u) => Complete(s, u) case None => s.(fault := true);
    match after
    case AfterRead => Goto(s1, t, Idle)
    case AfterOpen(ok) => Return(s1, t, f, Opened(ok))
  }

  // proc_reg_release
  function CloseSearch(s: State, t: Tid, f: File): State
    requires t < |s.threads|
  {
    if f in s.pde.openers then ClosePdeo(s, t, f, ByClose) else Return(SetLock(s, None), t, f, Closed)
  }

  // proc_entry_rundown
  function AddBias(s: State, t: Tid): State
    requires t < |s.threads|
  {
    var v := Wrap32(s.pde.inUse + BIAS);
    Goto(s.(pde := s.pde.(inUse := v)), t, if v != BIAS then RunWait else RunLock)
  }

  function DrainFirst(s: State, t: Tid): State
    requires t < |s.threads|
  {
    if s.pde.openers == [] then Goto(SetLock(s, None).(phase := Returned), t, Idle)
    else ClosePdeo(s, t, s.pde.openers[0], ByRundown)
  }

  /** wait_for_completion returns: the completion is consumed. */
  function Woken(s: State, t: Tid, pc: Pc): State
    requires t < |s.threads|
  {
    Goto(s.(done := s.done - {t}), t, pc)
  }

  function StepThread(s: State, t: Tid, hookOk: bool): State
    requires t < |s.threads|
  {
    match s.threads[t]
    case Idle => s
    case ReadUse(f) => ReadEnter(s, t, f)
    case ReadHook(f) => Goto(s, t, ReadUnuse(f))
    case ReadUnuse(f) => ReadLeave(s, t, f)
    case OpenUse(f) => OpenEnter(s, t, f)
    case OpenHook(f) => OpenHooked(s, t, f, hookOk)
    case OpenLock(f) => Goto(SetLock(s, Some(t)), t, OpenAdd(f))
    case OpenAdd(f) => OpenRecord(s, t, f)
    case OpenUnuse(f, ok) => OpenLeave(s, t, f, ok)
    case Signal(f, after) => SignalUnload(s, t, f, after)
    case CloseLock(f) => Goto(SetLock(s, Some(t)), t, CloseFind(f))
    case CloseFind(f) => CloseSearch(s, t, f)
    case CloseUnlock(f) => Return(SetLock(s, None), t, f, Closed)
    case Wait(f, side) => Woken(s, t, Relock(f, side))
    case Relock(f, side) => Goto(SetLock(s, Some(t)), t, if side.ByClose? then CloseUnlock(f) else RunLoop)
    case Release(f, side) => Goto(s, t, Retake(f, side))
    case Retake(f, side) => Goto(SetLock(s, Some(t)), t, Finish(f, side))
    case Finish(f, side) => FinishRelease(s, t, f, side)
    case RunSet => Goto(s.(pde := s.pde.(unload := Some(t))), t, RunAdd)
    case RunAdd => AddBias(s, t)
    case RunWait => Woken(s, t, RunLock)
    case RunLock => Goto(SetLock(s, Some(t)), t, RunLoop)
    case RunLoop => DrainFirst(s, t)
  }

  /** A thread that is inside a call can take its next step. */
  predicate CanStep(s: State, t: Tid) {
    t < |s.threads|
    && !s.threads[t].Idle?
    && (NeedsLock(s.threads[t]) ==> s.pde.lock == None)
    && (Blocking(s.threads[t]) ==> t in s.done)
  }

  // The VFS calls open on a fresh file, read only on an open file, and release once, after
  // the last read returned; the entry is removed once.
  ghost predicate Enabled(s: State, a: Action) {
    a.tid < |s.threads|
    && match a
       case StartRead(t, f) => s.threads[t].Idle? && f in s.files && s.files[f] == Open
       case StartOpen(t, f) => s.threads[t].Idle? && f !in s.files
       case StartClose(t, f) =>
         s.threads[t].Idle? && f in s.files && s.files[f] == Open
         && forall u :: 0 <= u < |s.threads| ==> !Reading(s.threads[u], f)
       case StartRundown(t) => s.threads[t].Idle? && s.phase == NotStarted
       case Step(t, _) => CanStep(s, t)
  }

  function Next(s: State, a: Action): State
    requires a.tid < |s.threads|
  {
    match a
    case StartRead(t, f) => Goto(s, t, ReadUse(f))
    case StartOpen(t, f) => Goto(s.(files := s.files[f := Opening(t)]), t, OpenUse(f))
    case StartClose(t, f) => Goto(s.(files := s.files[f := Closing(t)]), t, CloseLock(f))
    case StartRundown(t) => Goto(s.(phase := Running(t)), t, RunSet)
    case Step(t, ok) => StepThread(s, t, ok)
  }

  ghost predicate Init(s: State) {
    s.pde == Pde(s.pde.hasOpen, s.pde.hasRelease, 0, None, [], map[], None)
    && |s.threads| < MAX_THREADS
    && (forall t :: 0 <= t < |s.threads| ==> s.threads[t].Idle?)
    && s.done == {} && s.files == map[] && s.phase == NotStarted
    && s.releases == multiset{} && s.recorded == {} && s.owner == map[] && !s.fault
  }

  // ---------- sums over threads ----------

  function Sum(ts: seq<Pc>, w: Pc -> nat): nat {
    if ts == [] then 0 else w(ts[0]) + Sum(ts[1..], w)
  }

  function ActiveWeight(pc: Pc): nat { if Active(pc) then 1 else 0 }
  function SignalWeight(pc: Pc): nat { if pc.Signal? then 1 else 0 }

  function Actives(s: State): nat { Sum(s.threads, ActiveWeight) }
  function Signals(s: State): nat { Sum(s.threads, SignalWeight) }

  lemma {:induction false} SumUpdate(ts: seq<Pc>, t: nat, pc: Pc, w: Pc -> nat)
    requires t < |ts|
    ensures Sum(ts[t := pc], w) == Sum(ts, w) - w(ts[t]) + w(pc)
    ensures Sum(ts, w) >= w(ts[t])
  {
    if t == 0 {
      assert ts[0 := pc][1..] == ts[1..];
    } else {
      SumUpdate(ts[1..], t - 1, pc, w);
      assert ts[t := pc][1..] == ts[1..][t - 1 := pc];
    }
  }

  /** A sum is positive exactly when some thread has a positive weight. */
  lemma {:induction false} SumPositive(ts: seq<Pc>, w: Pc -> nat)
    ensures Sum(ts, w) > 0 <==> exists t :: 0 <= t < |ts| && w(ts[t]) > 0
  {
    if ts != [] {
      SumPositive(ts[1..], w);
      if w(ts[0]) == 0 && Sum(ts, w) > 0 {
        var t :| 0 <= t < |ts[1..]| && w(ts[1..][t]) > 0;
        assert w(ts[t + 1]) > 0;
      }
      if t :| 0 <= t < |ts| && w(ts[t]) > 0 {
        if t > 0 { assert w(ts[1..][t - 1]) > 0; }
      }
    }
  }

  /** A 0-1 weight sums to at most the number of threads. */
  lemma {:induction false} SumAtMost(ts: seq<Pc>, w: Pc -> nat)
    requires forall pc :: w(pc) <= 1
    ensures Sum(ts, w) <= |ts|
  {
    if ts != [] { SumAtMost(ts[1..], w); }
  }
}
