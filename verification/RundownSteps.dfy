/**
 * Every step of the rundown protocol keeps the joint invariant.
 */
module RundownSteps {
  import opened Wrappers
  import opened Rundown
  import opened RundownInvariant

  ghost predicate At(s: State, t: Tid, pc: Pc) {
    Inv(s) && EntryInv(s) && Here(s, t, pc)
  }

  /** Thread t is at pc and in order. */
  ghost predicate Here(s: State, t: Tid, pc: Pc) {
    t < |s.threads| && s.threads[t] == pc && ThreadInv(s, t)
  }

  ghost predicate Counters(s: State) { CounterInv(s) && PhaseInv(s) }

  // A step is quiet and leaves the thread in order, and it leaves the counters right.  The two
  // halves are proved apart, from the parts of the invariant that each needs.

  ghost predicate Keeps(s: State, s': State, t: Tid, f: File) {
    Quiet(s, s', t, f) && ThreadInv(s', t)
  }

  ghost predicate NobodyElse(s: State, t: Tid, f: File) {
    forall u :: 0 <= u < |s.threads| && u != t ==> !HasClaim(s.threads[u], u, f)
  }

  // ---------- hook callers ----------

  lemma ReadEnterCounters(s: State, t: Tid, f: File)
    requires Here(s, t, ReadUse(f)) && Counters(s)
    ensures Counters(ReadEnter(s, t, f))
  {
    NoWrap(s, t);
    CounterStep(s, ReadEnter(s, t, f), t);
  }

  lemma ReadEnterKeeps(s: State, t: Tid, f: File)
    requires Here(s, t, ReadUse(f)) && Bounded(s)
    ensures Keeps(s, ReadEnter(s, t, f), t, f)
  {
  }

  lemma ReadEnterInv(s: State, t: Tid, f: File)
    requires At(s, t, ReadUse(f))
    ensures Inv(ReadEnter(s, t, f))
  {
    ReadEnterCounters(s, t, f);
    ReadEnterKeeps(s, t, f);
    QuietFrame(s, ReadEnter(s, t, f), t, f);
  }

  lemma ReadLeaveCounters(s: State, t: Tid, f: File)
    requires Here(s, t, ReadUnuse(f)) && Counters(s)
    ensures Counters(ReadLeave(s, t, f))
  {
    NoWrap(s, t);
    CounterStep(s, ReadLeave(s, t, f), t);
  }

  lemma ReadLeaveKeeps(s: State, t: Tid, f: File)
    requires Here(s, t, ReadUnuse(f)) && Bounded(s)
    ensures Keeps(s, ReadLeave(s, t, f), t, f)
  {
  }

  lemma ReadLeaveInv(s: State, t: Tid, f: File)
    requires At(s, t, ReadUnuse(f))
    ensures Inv(ReadLeave(s, t, f))
  {
    ReadLeaveCounters(s, t, f);
    ReadLeaveKeeps(s, t, f);
    QuietFrame(s, ReadLeave(s, t, f), t, f);
  }

  lemma NoOtherClaim(s: State, t: Tid, f: File)
    requires Inv(s) && t < |s.threads| && ThreadInv(s, t)
    requires HasClaim(s.threads[t], t, f) && Claim(s.threads[t], t) != Some(Open)
    ensures NobodyElse(s, t, f)
  {
    forall u | 0 <= u < |s.threads| && u != t ensures !HasClaim(s.threads[u], u, f) { Known(s, u, f); }
  }

  lemma OpenEnterCounters(s: State, t: Tid, f: File)
    requires Here(s, t, OpenUse(f)) && Counters(s)
    ensures Counters(OpenEnter(s, t, f))
  {
    NoWrap(s, t);
    CounterStep(s, OpenEnter(s, t, f), t);
  }

  /** A call that only changed in_use may return: the file ends Open or Closed as it should. */
  lemma ReturnQuiet(s: State, s1: State, t: Tid, f: File, fs: FileState)
    requires t < |s.threads| && OnFile(s.threads[t], f) && !Critical(s.threads[t]) && Bounded(s)
    requires !s.threads[t].Wait? && !Releasing(s.threads[t], f)
    requires s1 == s.(pde := s.pde.(inUse := s1.pde.inUse)) && NobodyElse(s, t, f)
    requires fs == Closed ==> f !in s.pde.pdeos
    requires fs == Open ==> (f in s.recorded <==> s.pde.hasRelease)
    requires fs == Open || fs == Closed
    ensures Quiet(s, Return(s1, t, f, fs), t, f)
  {
  }

  lemma OpenEnterQuiet(s: State, t: Tid, f: File)
    requires Here(s, t, OpenUse(f)) && Bounded(s) && ListInv(s) && NobodyElse(s, t, f)
    ensures Quiet(s, OpenEnter(s, t, f), t, f)
  {
    if s.pde.inUse < 0 { ReturnQuiet(s, s, t, f, Closed); }
  }

  lemma OpenEnterSelf(s: State, t: Tid, f: File)
    requires Here(s, t, OpenUse(f))
    ensures ThreadInv(OpenEnter(s, t, f), t)
  {
  }

  lemma OpenEnterInv(s: State, t: Tid, f: File)
    requires At(s, t, OpenUse(f))
    ensures Inv(OpenEnter(s, t, f))
  {
    Known(s, t, f);
    NoOtherClaim(s, t, f);
    OpenEnterCounters(s, t, f);
    OpenEnterQuiet(s, t, f);
    OpenEnterSelf(s, t, f);
    QuietFrame(s, OpenEnter(s, t, f), t, f);
  }

  lemma OpenHookedInv(s: State, t: Tid, f: File, hookOk: bool)
    requires At(s, t, OpenHook(f))
    ensures Inv(OpenHooked(s, t, f, hookOk))
  {
    var s' := OpenHooked(s, t, f, hookOk);
    CounterStep(s, s', t);
    QuietFrame(s, s', t, f);
  }

  lemma OpenLeaveCounters(s: State, t: Tid, f: File, ok: bool)
    requires Here(s, t, OpenUnuse(f, ok)) && Counters(s)
    ensures Counters(OpenLeave(s, t, f, ok))
  {
    NoWrap(s, t);
    CounterStep(s, OpenLeave(s, t, f, ok), t);
  }

  lemma OpenLeaveQuiet(s: State, t: Tid, f: File, ok: bool)
    requires Here(s, t, OpenUnuse(f, ok)) && Bounded(s) && ListInv(s) && NobodyElse(s, t, f)
    ensures Quiet(s, OpenLeave(s, t, f, ok), t, f)
  {
    if Unuse(s).pde.inUse != BIAS { ReturnQuiet(s, Unuse(s), t, f, Opened(ok)); }
  }

  lemma OpenLeaveSelf(s: State, t: Tid, f: File, ok: bool)
    requires Here(s, t, OpenUnuse(f, ok))
    ensures ThreadInv(OpenLeave(s, t, f, ok), t)
  {
  }

  lemma OpenLeaveInv(s: State, t: Tid, f: File, ok: bool)
    requires At(s, t, OpenUnuse(f, ok))
    ensures Inv(OpenLeave(s, t, f, ok))
  {
    Known(s, t, f);
    NoOtherClaim(s, t, f);
    OpenLeaveCounters(s, t, f, ok);
    OpenLeaveQuiet(s, t, f, ok);
    OpenLeaveSelf(s, t, f, ok);
    QuietFrame(s, OpenLeave(s, t, f, ok), t, f);
  }

  /** The thread that must signal finds the remover waiting on a live completion. */
  lemma SignalTarget(s: State, t: Tid, f: File, after: After)
    requires Here(s, t, Signal(f, after)) && Counters(s)
    ensures s.phase.Running? && s.phase.tid < |s.threads| && s.threads[s.phase.tid].RunWait?
    ensures s.phase.tid !in s.done && s.pde.unload == Some(s.phase.tid)
    ensures Actives(s) == 0 && Signals(s) == 1
  {
    Recount(s, t, Idle);
  }

  lemma SignalCounters(s: State, t: Tid, f: File, after: After)
    requires Here(s, t, Signal(f, after)) && Counters(s)
    ensures Counters(SignalUnload(s, t, f, after))
  {
    SignalTarget(s, t, f, after);
    Recount(s, t, Idle);
  }

  lemma SignalQuiet(s: State, t: Tid, f: File, after: After, r: Tid)
    requires Here(s, t, Signal(f, after)) && Bounded(s) && ListInv(s)
    requires after.AfterOpen? ==> NobodyElse(s, t, f)
    requires s.pde.unload == Some(r) && r < |s.threads| && s.threads[r].RunWait?
    ensures Quiet(s, SignalUnload(s, t, f, after), t, f)
  {
  }

  lemma SignalSelf(s: State, t: Tid, f: File, after: After, r: Tid)
    requires Here(s, t, Signal(f, after))
    requires s.pde.unload == Some(r) && r < |s.threads| && s.threads[r].RunWait?
    ensures ThreadInv(SignalUnload(s, t, f, after), t)
  {
  }

  lemma SignalInv(s: State, t: Tid, f: File, after: After)
    requires At(s, t, Signal(f, after))
    ensures Inv(SignalUnload(s, t, f, after))
  {
    Known(s, t, f);
    SignalTarget(s, t, f, after);
    SignalCounters(s, t, f, after);
    if after.AfterOpen? { NoOtherClaim(s, t, f); }
    SignalQuiet(s, t, f, after, s.phase.tid);
    SignalSelf(s, t, f, after, s.phase.tid);
    QuietFrame(s, SignalUnload(s, t, f, after), t, f);
  }

  // ---------- locks and moves ----------

  function Locked(pc: Pc): Pc
    requires NeedsLock(pc)
  {
    match pc
    case OpenLock(f) => OpenAdd(f)
    case CloseLock(f) => CloseFind(f)
    case Relock(f, side) => if side.ByClose? then CloseUnlock(f) else RunLoop
    case Retake(f, side) => Finish(f, side)
    case RunLock => RunLoop
  }

  lemma LockCounters(s: State, t: Tid, pc: Pc)
    requires Here(s, t, pc) && NeedsLock(pc) && Counters(s)
    ensures Counters(Goto(SetLock(s, Some(t)), t, Locked(pc)))
  {
    CounterStep(s, Goto(SetLock(s, Some(t)), t, Locked(pc)), t);
  }

  lemma LockKeeps(s: State, t: Tid, pc: Pc)
    requires Here(s, t, pc) && NeedsLock(pc) && Bounded(s) && s.pde.lock == None
    ensures Keeps(s, Goto(SetLock(s, Some(t)), t, Locked(pc)), t, 0)
  {
  }

  lemma LockInv(s: State, t: Tid, pc: Pc)
    requires At(s, t, pc) && NeedsLock(pc) && s.pde.lock == None
    ensures Inv(Goto(SetLock(s, Some(t)), t, Locked(pc)))
  {
    LockCounters(s, t, pc);
    LockKeeps(s, t, pc);
    QuietFrame(s, Goto(SetLock(s, Some(t)), t, Locked(pc)), t, 0);
  }

  lemma ReadHookedInv(s: State, t: Tid, f: File)
    requires At(s, t, ReadHook(f))
    ensures Inv(Goto(s, t, ReadUnuse(f)))
  {
    var s' := Goto(s, t, ReadUnuse(f));
    CounterStep(s, s', t);
    QuietFrame(s, s', t, f);
  }

  lemma ReleasedInv(s: State, t: Tid, f: File, side: By)
    requires At(s, t, Release(f, side))
    ensures Inv(Goto(s, t, Retake(f, side)))
  {
    var s' := Goto(s, t, Retake(f, side));
    CounterStep(s, s', t);
    QuietFrame(s, s', t, f);
  }

  ghost predicate Leaving(s: State, t: Tid, f: File) {
    t < |s.threads| && (s.threads[t] == CloseUnlock(f) || (s.threads[t] == CloseFind(f) && f !in s.pde.openers))
  }

  lemma CloseReturnCounters(s: State, t: Tid, f: File)
    requires Leaving(s, t, f) && ThreadInv(s, t) && Counters(s)
    ensures Counters(Return(SetLock(s, None), t, f, Closed))
  {
    CounterStep(s, Return(SetLock(s, None), t, f, Closed), t);
  }

  lemma CloseReturnKeeps(s: State, t: Tid, f: File)
    requires Leaving(s, t, f) && ThreadInv(s, t) && Bounded(s) && ListInv(s) && NobodyElse(s, t, f)
    ensures Keeps(s, Return(SetLock(s, None), t, f, Closed), t, f)
  {
  }

  lemma CloseReturnInv(s: State, t: Tid, f: File)
    requires t < |s.threads| && At(s, t, s.threads[t]) && Leaving(s, t, f)
    ensures Inv(Return(SetLock(s, None), t, f, Closed))
  {
    NoOtherClaim(s, t, f);
    CloseReturnCounters(s, t, f);
    CloseReturnKeeps(s, t, f);
    QuietFrame(s, Return(SetLock(s, None), t, f, Closed), t, f);
  }

  // ---------- records ----------

  lemma OpenRecordCounters(s: State, t: Tid, f: File)
    requires Here(s, t, OpenAdd(f)) && Counters(s)
    ensures Counters(OpenRecord(s, t, f))
  {
    CounterStep(s, OpenRecord(s, t, f), t);
    Recount(s, t, Idle);
  }

  lemma OpenRecordLocal(s: State, t: Tid, f: File)
    requires Here(s, t, OpenAdd(f)) && Bounded(s)
    ensures Local(s, OpenRecord(s, t, f), t, f)
  {
  }

  lemma OpenRecordList(s: State, t: Tid, f: File)
    requires Here(s, t, OpenAdd(f)) && ListInv(s)
    ensures ListInv(OpenRecord(s, t, f))
  {
  }

  lemma OpenRecordFile(s: State, t: Tid, f: File)
    requires Here(s, t, OpenAdd(f)) && ListInv(s) && FileInv(s, f)
    ensures FileInv(OpenRecord(s, t, f), f) && ThreadInv(OpenRecord(s, t, f), t)
  {
  }

  /** Nobody else works on a file that its opener has not recorded yet. */
  lemma NobodyOn(s: State, f: File, u: Tid)
    requires u < |s.threads| && ThreadInv(s, u) && !HasClaim(s.threads[u], u, f) && f !in s.recorded
    ensures !OnFile(s.threads[u], f)
  {
  }

  lemma OpenRecordInv(s: State, t: Tid, f: File)
    requires At(s, t, OpenAdd(f))
    ensures Inv(OpenRecord(s, t, f))
  {
    var s' := OpenRecord(s, t, f);
    Known(s, t, f);
    OpenRecordCounters(s, t, f);
    OpenRecordLocal(s, t, f);
    OpenRecordList(s, t, f);
    OpenRecordFile(s, t, f);
    NoOtherClaim(s, t, f);
    forall u | 0 <= u < |s.threads| && u != t ensures !OnFile(s.threads[u], f) {
      Known(s, u, f);
      NobodyOn(s, f, u);
    }
    LocalFrame(s, s', t, f);
  }

  predicate Entering(s: State, t: Tid, f: File, side: By) {
    t < |s.threads| && f in s.pde.openers
    && match side
       case ByClose => s.threads[t] == CloseFind(f)
       case ByRundown => s.threads[t] == RunLoop
  }

  /** While one party runs the release hook, at most the other party is there to wait. */
  lemma OneWaiter(s: State, t: Tid, f: File, side: By, u: Tid)
    requires Inv(s) && Entering(s, t, f, side)
    requires f in s.pde.pdeos && s.pde.pdeos[f].closing
    requires u < |s.threads| && u != t
    ensures !(s.threads[u].Wait? && s.threads[u].file == f)
  {
    Known(s, t, f);
    Known(s, u, f);
    Known(s, s.owner[f], f);
  }

  lemma AwaitCounters(s: State, t: Tid, f: File, side: By)
    requires Entering(s, t, f, side) && ThreadInv(s, t) && Counters(s)
    ensures Counters(AwaitRelease(s, t, f, side))
  {
    CounterStep(s, AwaitRelease(s, t, f, side), t);
  }

  lemma AwaitLocal(s: State, t: Tid, f: File, side: By)
    requires Entering(s, t, f, side) && f in s.pde.pdeos && ThreadInv(s, t) && Bounded(s)
    ensures Local(s, AwaitRelease(s, t, f, side), t, f)
  {
  }

  lemma AwaitSelf(s: State, t: Tid, f: File, side: By)
    requires Entering(s, t, f, side) && ThreadInv(s, t) && FileInv(s, f) && ListInv(s)
    requires f in s.pde.pdeos && s.pde.pdeos[f].closing
    ensures var s' := AwaitRelease(s, t, f, side); ThreadInv(s', t) && ListInv(s') && FileInv(s', f)
  {
    assert AwaitRelease(s, t, f, side).threads[s.owner[f]] == s.threads[s.owner[f]];
  }

  lemma AwaitInv(s: State, t: Tid, f: File, side: By)
    requires Inv(s) && Entering(s, t, f, side)
    requires f in s.pde.pdeos && s.pde.pdeos[f].closing
    ensures Inv(AwaitRelease(s, t, f, side))
  {
    var s' := AwaitRelease(s, t, f, side);
    Known(s, t, f);
    AwaitCounters(s, t, f, side);
    AwaitLocal(s, t, f, side);
    AwaitSelf(s, t, f, side);
    forall u | 0 <= u < |s.threads| && u != t && OnFile(s.threads[u], f) ensures ThreadInv(s', u) {
      OneWaiter(s, t, f, side, u);
      Known(s, u, f);
    }
    LocalFrame(s, s', t, f);
  }

  lemma BeginCounters(s: State, t: Tid, f: File, side: By)
    requires Entering(s, t, f, side) && f in s.pde.pdeos && ThreadInv(s, t) && Counters(s)
    ensures Counters(BeginRelease(s, t, f, side))
  {
    CounterStep(s, BeginRelease(s, t, f, side), t);
  }

  lemma BeginLocal(s: State, t: Tid, f: File, side: By)
    requires Entering(s, t, f, side) && f in s.pde.pdeos && ThreadInv(s, t) && Bounded(s)
    ensures Local(s, BeginRelease(s, t, f, side), t, f)
  {
  }

  lemma BeginSelf(s: State, t: Tid, f: File, side: By)
    requires Entering(s, t, f, side) && ThreadInv(s, t) && f in s.pde.pdeos && f in s.recorded
    ensures ThreadInv(BeginRelease(s, t, f, side), t)
  {
  }

  lemma BeginFile(s: State, t: Tid, f: File, side: By)
    requires Entering(s, t, f, side) && FileInv(s, f) && ListInv(s)
    requires f in s.pde.pdeos && !s.pde.pdeos[f].closing
    ensures var s' := BeginRelease(s, t, f, side); ListInv(s') && FileInv(s', f)
  {
  }

  lemma BeginInv(s: State, t: Tid, f: File, side: By)
    requires Inv(s) && Entering(s, t, f, side)
    requires f in s.pde.pdeos && !s.pde.pdeos[f].closing
    ensures Inv(BeginRelease(s, t, f, side))
  {
    var s' := BeginRelease(s, t, f, side);
    Known(s, t, f);
    BeginCounters(s, t, f, side);
    BeginLocal(s, t, f, side);
    BeginSelf(s, t, f, side);
    BeginFile(s, t, f, side);
    forall u | 0 <= u < |s.threads| && u != t && OnFile(s.threads[u], f) ensures ThreadInv(s', u) {
      Known(s, u, f);
    }
    LocalFrame(s, s', t, f);
  }

  /** Entering close_pdeo, whether it starts the release hook or waits for the other party. */
  lemma EnterInv(s: State, t: Tid, f: File, side: By)
    requires Inv(s) && Entering(s, t, f, side)
    ensures Inv(ClosePdeo(s, t, f, side))
  {
    Known(s, t, f);
    if s.pde.pdeos[f].closing { AwaitInv(s, t, f, side); } else { BeginInv(s, t, f, side); }
  }

  lemma {:induction false} RemoveGone(xs: seq<File>, f: File)
    requires NoDup(xs)
    ensures NoDup(Remove(xs, f))
    ensures forall g :: g in Remove(xs, f) <==> g in xs && g != f
    ensures |Remove(xs, f)| == if f in xs then |xs| - 1 else |xs|
  {
    if xs != [] {
      var rest := xs[1..];
      assert NoDup(rest) && xs[0] !in rest by {
        forall i | 0 <= i < |rest| ensures rest[i] != xs[0] { assert rest[i] == xs[i + 1]; }
      }
      RemoveGone(rest, f);
      assert xs == [xs[0]] + rest;
    }
  }

  /** What FinishRelease does to a state in order, spelled out. */
  ghost predicate Finished(s: State, s': State, t: Tid, f: File, side: By) {
    && t < |s.threads| && f in s.pde.pdeos
    && s'.threads == s.threads[t := if side.ByClose? then Idle else RunLoop]
    && s'.pde == s.pde.(openers := Remove(s.pde.openers, f), pdeos := s.pde.pdeos - {f},
                        lock := if side.ByClose? then None else s.pde.lock)
    && s'.files == (if side.ByClose? then s.files[f := Closed] else s.files)
    && s'.done == (match s.pde.pdeos[f].c case Some(w) => s.done + {w} case None => s.done)
    && s'.owner == s.owner - {f}
    && s'.phase == s.phase && s'.releases == s.releases && s'.recorded == s.recorded && s'.fault == s.fault
  }

  lemma FinishIs(s: State, t: Tid, f: File, side: By)
    requires Here(s, t, Finish(f, side)) && FileInv(s, f) && f in s.pde.pdeos
    ensures Finished(s, FinishRelease(s, t, f, side), t, f, side)
  {
  }

  lemma FinishOther(s: State, s': State, t: Tid, f: File, side: By, u: Tid)
    requires Finished(s, s', t, f, side) && Here(s, t, Finish(f, side)) && FileInv(s, f)
    requires u < |s.threads| && u != t && OnFile(s.threads[u], f) && ThreadInv(s, u)
    requires f in s.owner && s.owner[f] == t && (side.ByClose? ==> NobodyElse(s, t, f))
    ensures ThreadInv(s', u)
  {
    assert s'.threads[u] == s.threads[u];
  }

  lemma FinishCounters(s: State, s': State, t: Tid, f: File, side: By)
    requires Finished(s, s', t, f, side) && Here(s, t, Finish(f, side)) && FileInv(s, f) && Counters(s)
    ensures CounterInv(s')
  {
    CounterStep(s, s', t);
  }

  lemma FinishPhase(s: State, s': State, t: Tid, f: File, side: By)
    requires Finished(s, s', t, f, side) && Here(s, t, Finish(f, side)) && PhaseInv(s)
    ensures PhaseInv(s')
  {
  }

  lemma FinishList(s: State, s': State, t: Tid, f: File, side: By)
    requires Finished(s, s', t, f, side) && ListInv(s) && f in s.recorded
    ensures ListInv(s')
  {
    RemoveGone(s.pde.openers, f);
  }

  lemma FinishFile(s: State, s': State, t: Tid, f: File, side: By)
    requires Finished(s, s', t, f, side) && Here(s, t, Finish(f, side)) && FileInv(s, f)
    ensures FileInv(s', f)
  {
  }

  lemma FinishLocal(s: State, s': State, t: Tid, f: File, side: By)
    requires Finished(s, s', t, f, side) && Here(s, t, Finish(f, side)) && FileInv(s, f) && Bounded(s)
    ensures Local(s, s', t, f)
  {
    if s.pde.pdeos[f].c.Some? { assert OnFile(s.threads[s.pde.pdeos[f].c.value], f); }
  }

  lemma FinishSelf(s: State, s': State, t: Tid, f: File, side: By)
    requires Finished(s, s', t, f, side) && Here(s, t, Finish(f, side)) && FileInv(s, f)
    ensures ThreadInv(s', t)
  {
  }

  lemma FinishOthers(s: State, s': State, t: Tid, f: File, side: By)
    requires Inv(s) && Finished(s, s', t, f, side) && Here(s, t, Finish(f, side)) && FileInv(s, f)
    ensures forall u :: 0 <= u < |s.threads| && u != t && OnFile(s.threads[u], f) ==> ThreadInv(s', u)
  {
    if side.ByClose? { NoOtherClaim(s, t, f); }
    forall u | 0 <= u < |s.threads| && u != t && OnFile(s.threads[u], f) ensures ThreadInv(s', u) {
      Known(s, u, f);
      FinishOther(s, s', t, f, side, u);
    }
  }

  lemma FinishInv(s: State, t: Tid, f: File, side: By)
    requires At(s, t, Finish(f, side))
    ensures Inv(FinishRelease(s, t, f, side))
  {
    var s' := FinishRelease(s, t, f, side);
    Known(s, t, f);
    FinishIs(s, t, f, side);
    FinishCounters(s, s', t, f, side);
    FinishPhase(s, s', t, f, side);
    FinishList(s, s', t, f, side);
    FinishFile(s, s', t, f, side);
    FinishLocal(s, s', t, f, side);
    FinishSelf(s, s', t, f, side);
    FinishOthers(s, s', t, f, side);
    LocalFrame(s, s', t, f);
  }

  lemma WokenCounters(s: State, t: Tid, f: File, side: By)
    requires Here(s, t, Wait(f, side)) && t in s.done && Counters(s)
    ensures Counters(Woken(s, t, Relock(f, side)))
  {
    CounterStep(s, Woken(s, t, Relock(f, side)), t);
  }

  lemma WokenFile(s: State, t: Tid, f: File, side: By)
    requires Here(s, t, Wait(f, side)) && t in s.done && Bounded(s) && ListInv(s) && FileInv(s, f)
    ensures var s' := Woken(s, t, Relock(f, side));
      Local(s, s', t, f) && ListInv(s') && FileInv(s', f) && ThreadInv(s', t)
  {
  }

  lemma WokenInv(s: State, t: Tid, f: File, side: By)
    requires At(s, t, Wait(f, side)) && t in s.done
    ensures Inv(Woken(s, t, Relock(f, side)))
  {
    var s' := Woken(s, t, Relock(f, side));
    Known(s, t, f);
    WokenCounters(s, t, f, side);
    WokenFile(s, t, f, side);
    forall u | 0 <= u < |s.threads| && u != t && OnFile(s.threads[u], f) ensures ThreadInv(s', u) {
      Known(s, u, f);
    }
    LocalFrame(s, s', t, f);
  }

  // ---------- remover ----------

  lemma RunSetInv(s: State, t: Tid)
    requires At(s, t, RunSet)
    ensures Inv(Goto(s.(pde := s.pde.(unload := Some(t))), t, RunAdd))
  {
    var s' := Goto(s.(pde := s.pde.(unload := Some(t))), t, RunAdd);
    Recount(s, t, RunAdd);
    QuietFrame(s, s', t, 0);
  }

  lemma AddBiasCounters(s: State, t: Tid)
    requires Here(s, t, RunAdd) && Counters(s)
    ensures Counters(AddBias(s, t))
  {
    NoWrap(s, t);
    Recount(s, t, AddBias(s, t).threads[t]);
  }

  lemma AddBiasKeeps(s: State, t: Tid)
    requires Here(s, t, RunAdd) && Bounded(s)
    ensures Keeps(s, AddBias(s, t), t, 0)
  {
  }

  lemma AddBiasInv(s: State, t: Tid)
    requires At(s, t, RunAdd)
    ensures Inv(AddBias(s, t))
  {
    AddBiasCounters(s, t);
    AddBiasKeeps(s, t);
    QuietFrame(s, AddBias(s, t), t, 0);
  }

  lemma DrainedInv(s: State, t: Tid)
    requires At(s, t, RunWait) && t in s.done
    ensures Inv(Woken(s, t, RunLock))
  {
    var s' := Woken(s, t, RunLock);
    Recount(s, t, RunLock);
    QuietFrame(s, s', t, 0);
  }

  lemma ReturnedInv(s: State, t: Tid)
    requires At(s, t, RunLoop) && s.pde.openers == []
    ensures Inv(DrainFirst(s, t))
  {
    var s' := DrainFirst(s, t);
    Recount(s, t, Idle);
    QuietFrame(s, s', t, 0);
  }

  // ---------- all actions ----------

  lemma StartRundownCounters(s: State, t: Tid)
    requires Here(s, t, Idle) && Counters(s) && s.phase == NotStarted
    ensures Counters(Goto(s.(phase := Running(t)), t, RunSet))
  {
    Recount(s, t, RunSet);
  }

  lemma StartRundownKeeps(s: State, t: Tid)
    requires Here(s, t, Idle) && Bounded(s) && s.phase == NotStarted
    ensures Keeps(s, Goto(s.(phase := Running(t)), t, RunSet), t, 0)
  {
  }

  lemma StartRundownInv(s: State, t: Tid)
    requires Inv(s) && Enabled(s, StartRundown(t))
    ensures Inv(Next(s, StartRundown(t)))
  {
    Known(s, t, 0);
    StartRundownCounters(s, t);
    StartRundownKeeps(s, t);
    QuietFrame(s, Next(s, StartRundown(t)), t, 0);
  }

  lemma NoReader(s: State, a: Action, u: Tid)
    requires Inv(s) && Enabled(s, a) && (a.StartOpen? || a.StartClose?) && u < |s.threads|
    ensures !HasClaim(s.threads[u], u, a.file)
  {
    Known(s, u, a.file);
    if a.StartClose? { assert !Reading(s.threads[u], a.file); }
  }

  lemma StartCallCounters(s: State, a: Action)
    requires Counters(s) && Enabled(s, a) && !a.Step? && !a.StartRundown? && ThreadInv(s, a.tid)
    ensures Counters(Next(s, a))
  {
    CounterStep(s, Next(s, a), a.tid);
  }

  lemma StartReadKeeps(s: State, t: Tid, f: File)
    requires Here(s, t, Idle) && Bounded(s) && f in s.files && s.files[f] == Open
    ensures Keeps(s, Goto(s, t, ReadUse(f)), t, f)
  {
  }

  lemma StartOpenKeeps(s: State, t: Tid, f: File)
    requires Here(s, t, Idle) && Bounded(s) && ListInv(s) && f !in s.files && NobodyElse(s, t, f)
    ensures Keeps(s, Goto(s.(files := s.files[f := Opening(t)]), t, OpenUse(f)), t, f)
  {
  }

  lemma StartCloseKeeps(s: State, t: Tid, f: File)
    requires Here(s, t, Idle) && Bounded(s) && FileInv(s, f) && f in s.files && s.files[f] == Open
             && NobodyElse(s, t, f)
    ensures Keeps(s, Goto(s.(files := s.files[f := Closing(t)]), t, CloseLock(f)), t, f)
  {
  }

  lemma StartCallInv(s: State, a: Action)
    requires Inv(s) && Enabled(s, a) && !a.Step? && !a.StartRundown?
    ensures Inv(Next(s, a))
  {
    var t, f := a.tid, a.file;
    Known(s, t, f);
    StartCallCounters(s, a);
    if a.StartRead? {
      StartReadKeeps(s, t, f);
    } else {
      forall u | 0 <= u < |s.threads| ensures !HasClaim(s.threads[u], u, f) { NoReader(s, a, u); }
      if a.StartOpen? { StartOpenKeeps(s, t, f); } else { StartCloseKeeps(s, t, f); }
    }
    QuietFrame(s, Next(s, a), t, f);
  }

  lemma CallStepInv(s: State, t: Tid, hookOk: bool)
    requires Inv(s) && EntryInv(s) && CanStep(s, t) && ThreadInv(s, t)
    requires var pc := s.threads[t]; !InRundown(pc) && !InClosePdeo(pc)
    ensures Inv(StepThread(s, t, hookOk))
  {
    var pc := s.threads[t];
    assert At(s, t, pc);
    match pc
    case ReadUse(f) => ReadEnterInv(s, t, f);
    case ReadHook(f) => ReadHookedInv(s, t, f);
    case ReadUnuse(f) => ReadLeaveInv(s, t, f);
    case OpenUse(f) => OpenEnterInv(s, t, f);
    case OpenHook(f) => OpenHookedInv(s, t, f, hookOk);
    case OpenLock(f) => LockInv(s, t, pc);
    case OpenAdd(f) => OpenRecordInv(s, t, f);
    case OpenUnuse(f, ok) => OpenLeaveInv(s, t, f, ok);
    case Signal(f, after) => SignalInv(s, t, f, after);
    case CloseLock(f) => LockInv(s, t, pc);
    case CloseFind(f) =>
      if f !in s.pde.openers { CloseReturnInv(s, t, f); } else { EnterInv(s, t, f, ByClose); }
    case CloseUnlock(f) => CloseReturnInv(s, t, f);
  }

  lemma PdeoStepInv(s: State, t: Tid, hookOk: bool)
    requires Inv(s) && EntryInv(s) && CanStep(s, t) && ThreadInv(s, t) && InClosePdeo(s.threads[t])
    ensures Inv(StepThread(s, t, hookOk))
  {
    var pc := s.threads[t];
    assert At(s, t, pc);
    match pc
    case Wait(f, side) => WokenInv(s, t, f, side);
    case Relock(f, side) => LockInv(s, t, pc);
    case Release(f, side) => ReleasedInv(s, t, f, side);
    case Retake(f, side) => LockInv(s, t, pc);
    case Finish(f, side) => FinishInv(s, t, f, side);
  }

  lemma RunStepInv(s: State, t: Tid, hookOk: bool)
    requires Inv(s) && EntryInv(s) && CanStep(s, t) && ThreadInv(s, t)
    requires InRundown(s.threads[t]) && !InClosePdeo(s.threads[t])
    ensures Inv(StepThread(s, t, hookOk))
  {
    var pc := s.threads[t];
    assert At(s, t, pc);
    match pc
    case RunSet => RunSetInv(s, t);
    case RunAdd => AddBiasInv(s, t);
    case RunWait => DrainedInv(s, t);
    case RunLock => LockInv(s, t, pc);
    case RunLoop =>
      if s.pde.openers == [] { ReturnedInv(s, t); } else { EnterInv(s, t, s.pde.openers[0], ByRundown); }
  }

  /** The joint invariant holds after every enabled action. */
  lemma NextInv(s: State, a: Action)
    requires Inv(s) && Enabled(s, a)
    ensures Inv(Next(s, a))
  {
    match a
    case Step(t, ok) =>
      Known(s, t, 0);
      if InClosePdeo(s.threads[t]) {
        PdeoStepInv(s, t, ok);
      } else if InRundown(s.threads[t]) {
        RunStepInv(s, t, ok);
      } else {
        CallStepInv(s, t, ok);
      }
    case StartRundown(t) => StartRundownInv(s, t);
    case _ => StartCallInv(s, a);
  }
}
