/**
 * The joint invariant of the rundown protocol over counter, opener list and program
 * counters, and its preservation by every step of every thread.
 */
module RundownInvariant {
  import opened Wrappers
  import opened Rundown

  // The remover has added BIAS to in_use.
  predicate Biased(s: State) {
    match s.phase
    case NotStarted => false
    case Returned => true
    case Running(r) => r < |s.threads| && !s.threads[r].RunSet? && !s.threads[r].RunAdd?
  }

  // The remover has seen the last caller leave.
  predicate Drained(s: State) {
    Biased(s) && match s.phase case Running(r) => !s.threads[r].RunWait? case _ => true
  }

  ghost predicate CounterInv(s: State) {
    && |s.threads| < MAX_THREADS
    && s.pde.inUse == (if Biased(s) then BIAS else 0) + Actives(s)
    && (!Biased(s) ==> Signals(s) == 0)
    && (Drained(s) ==> Actives(s) == 0 && Signals(s) == 0)
    && (Biased(s) && !Drained(s) ==>
          if s.phase.tid in s.done then Actives(s) == 0 && Signals(s) == 0
          else if Actives(s) > 0 then Signals(s) == 0
          else Signals(s) == 1)
  }

  ghost predicate PhaseInv(s: State) {
    match s.phase
    case NotStarted => true
    case Running(r) =>
      r < |s.threads| && InRundown(s.threads[r])
      && (!s.threads[r].RunSet? ==> s.pde.unload == Some(r))
    case Returned => s.pde.openers == []
  }

  predicate NoDup(xs: seq<File>) {
    forall i, j :: 0 <= i < j < |xs| ==> xs[i] != xs[j]
  }

  ghost predicate ListInv(s: State) {
    && NoDup(s.pde.openers)
    && (forall f :: f in s.pde.openers <==> f in s.pde.pdeos)
    && s.pde.pdeos.Keys <= s.recorded <= s.files.Keys
    && s.owner.Keys <= s.pde.pdeos.Keys
  }

  ghost predicate FileInv(s: State, f: File) {
    && (f in s.pde.pdeos ==>
          var o := s.pde.pdeos[f];
          && (o.closing <==> f in s.owner)
          && (f in s.owner ==> s.owner[f] < |s.threads| && Releasing(s.threads[s.owner[f]], f))
          && (o.c.Some? ==> o.closing && o.c.value < |s.threads| && o.c.value !in s.done
                            && s.threads[o.c.value].Wait? && s.threads[o.c.value].file == f)
          && s.releases[f] == (if o.closing then 1 else 0))
    && (f !in s.pde.pdeos ==> s.releases[f] == (if f in s.recorded then 1 else 0))
    && (f in s.files && s.files[f] == Closed ==> f !in s.pde.pdeos)
    && (f in s.files && (s.files[f].Open? || s.files[f].Closing?) ==> (f in s.recorded <==> s.pde.hasRelease))
  }

  // The state of its file that the program counter of thread t relies on.
  function Claim(pc: Pc, t: Tid): Option<FileState> {
    match pc
    case ReadUse(_) => Some(Open)
    case ReadHook(_) => Some(Open)
    case ReadUnuse(_) => Some(Open)
    case OpenUse(_) => Some(Opening(t))
    case OpenHook(_) => Some(Opening(t))
    case OpenLock(_) => Some(Opening(t))
    case OpenAdd(_) => Some(Opening(t))
    case OpenUnuse(_, _) => Some(Opening(t))
    case Signal(_, after) => Some(if after.AfterRead? then Open else Opening(t))
    case CloseLock(_) => Some(Closing(t))
    case CloseFind(_) => Some(Closing(t))
    case CloseUnlock(_) => Some(Closing(t))
    case Wait(_, side) => if side.ByClose? then Some(Closing(t)) else None
    case Relock(_, side) => if side.ByClose? then Some(Closing(t)) else None
    case Release(_, side) => if side.ByClose? then Some(Closing(t)) else None
    case Retake(_, side) => if side.ByClose? then Some(Closing(t)) else None
    case Finish(_, side) => if side.ByClose? then Some(Closing(t)) else None
    case _ => None
  }

  predicate BeforeAdd(pc: Pc) {
    pc.OpenUse? || pc.OpenHook? || pc.OpenLock? || pc.OpenAdd?
    || (pc.OpenUnuse? && !pc.ok) || (pc.Signal? && pc.after.AfterOpen? && !pc.after.ok)
  }

  predicate AfterAdd(pc: Pc) {
    (pc.OpenUnuse? && pc.ok) || (pc.Signal? && pc.after.AfterOpen? && pc.after.ok)
  }

  predicate InClosePdeo(pc: Pc) {
    pc.Wait? || pc.Relock? || pc.Release? || pc.Retake? || pc.Finish?
  }

  ghost predicate ThreadInv(s: State, t: Tid)
    requires t < |s.threads|
  {
    var pc := s.threads[t];
    && (s.pde.lock == Some(t) <==> Critical(pc))
    && (t in s.done ==> Blocking(pc))
    && (Claim(pc, t).Some? ==> pc.file in s.files && s.files[pc.file] == Claim(pc, t).value)
    && (InRundown(pc) ==> s.phase == Running(t))
    && (BeforeAdd(pc) ==> pc.file !in s.recorded)
    && (AfterAdd(pc) ==> (pc.file in s.recorded <==> s.pde.hasRelease))
    && (pc.OpenLock? || pc.OpenAdd? ==> s.pde.hasRelease)
    && (InClosePdeo(pc) ==> pc.file in s.recorded)
    && (pc.CloseUnlock? || pc.Relock? || (pc.Wait? && t in s.done) ==> pc.file !in s.pde.pdeos)
    && (pc.Wait? && t !in s.done ==>
          pc.file in s.pde.pdeos && s.pde.pdeos[pc.file] == Opener(true, Some(t)))
    && (pc.Release? || pc.Retake? || pc.Finish? ==> pc.file in s.owner && s.owner[pc.file] == t)
  }

  /** The lock and the signalled completions belong to threads. */
  ghost predicate Bounded(s: State) {
    && (s.pde.lock.Some? ==> s.pde.lock.value < |s.threads|)
    && (forall t :: t in s.done ==> t < |s.threads|)
  }

  ghost predicate EntryInv(s: State) {
    !s.fault && CounterInv(s) && PhaseInv(s) && ListInv(s) && Bounded(s)
  }

  // The joint invariant has a part for the entry as a whole, one for each file and one for
  // each thread.
  datatype Part = OfEntry | OfFile(f: File) | OfThread(t: Tid)

  ghost predicate Holds(s: State, p: Part) {
    match p
    case OfEntry => EntryInv(s)
    case OfFile(f) => FileInv(s, f)
    case OfThread(t) => t < |s.threads| ==> ThreadInv(s, t)
  }

  ghost predicate Inv(s: State) {
    forall p {:trigger Holds(s, p)} :: Holds(s, p)
  }

  /** What the invariant says of the entry, a thread and a file. */
  lemma Known(s: State, t: Tid, f: File)
    requires Inv(s)
    ensures EntryInv(s) && FileInv(s, f) && (t < |s.threads| ==> ThreadInv(s, t))
  {
    assert Holds(s, OfEntry) && Holds(s, OfFile(f)) && Holds(s, OfThread(t));
  }

  lemma {:induction false} IdleSum(ts: seq<Pc>, w: Pc -> nat)
    requires forall t :: 0 <= t < |ts| ==> w(ts[t]) == 0
    ensures Sum(ts, w) == 0
  {
    SumPositive(ts, w);
  }

  lemma InitInv(s: State)
    requires Init(s)
    ensures Inv(s)
  {
    IdleSum(s.threads, ActiveWeight);
    IdleSum(s.threads, SignalWeight);
    forall p ensures Holds(s, p) {}
  }

  /** How a step of t that sets its counter to pc moves both sums. */
  lemma Recount(s: State, t: Tid, pc: Pc)
    requires t < |s.threads|
    ensures Sum(s.threads[t := pc], ActiveWeight) == Actives(s) - ActiveWeight(s.threads[t]) + ActiveWeight(pc)
    ensures Sum(s.threads[t := pc], SignalWeight) == Signals(s) - SignalWeight(s.threads[t]) + SignalWeight(pc)
    ensures Actives(s) >= ActiveWeight(s.threads[t]) && Signals(s) >= SignalWeight(s.threads[t])
    ensures Sum(s.threads[t := pc], ActiveWeight) <= |s.threads|
  {
    SumUpdate(s.threads, t, pc, ActiveWeight);
    SumUpdate(s.threads, t, pc, SignalWeight);
    SumAtMost(s.threads[t := pc], ActiveWeight);
  }


  // ---------- frames ----------

  predicate HasClaim(pc: Pc, t: Tid, f: File) {
    Claim(pc, t).Some? && pc.file == f
  }

  // From s to s' only thread t moved; the opener list and its records are untouched, and
  // at most the state of file f changed.
  ghost predicate Quiet(s: State, s': State, t: Tid, f: File) {
    && t < |s.threads| && |s'.threads| == |s.threads|
    && s'.threads == s.threads[t := s'.threads[t]]
    && s'.pde.openers == s.pde.openers && s'.pde.pdeos == s.pde.pdeos && s'.pde.hasRelease == s.pde.hasRelease
    && s'.owner == s.owner && s'.recorded == s.recorded && s'.releases == s.releases && s'.fault == s.fault
    && (s'.files == s.files || FileMoved(s, s', t, f))
    && !s.threads[t].Wait? && (forall g :: Releasing(s.threads[t], g) ==> Releasing(s'.threads[t], g))
    && (forall u :: u != t ==> (s.pde.lock == Some(u) <==> s'.pde.lock == Some(u)))
    && (s'.pde.lock.Some? ==> s'.pde.lock.value < |s.threads|)
    && s.done - {t} <= s'.done
    && (forall u :: u in s'.done && u !in s.done ==> u < |s.threads| && s.threads[u].RunWait?)
    && (forall u :: u != t && s.phase == Running(u) ==> s'.phase == Running(u))
  }

  ghost predicate FileMoved(s: State, s': State, t: Tid, f: File) {
    && f in s'.files && s'.files == s.files[f := s'.files[f]]
    && (s'.files[f] == Closed ==> f !in s.pde.pdeos)
    && (s'.files[f].Open? || s'.files[f].Closing? ==> (f in s.recorded <==> s.pde.hasRelease))
    && (forall u :: 0 <= u < |s.threads| && u != t ==> !HasClaim(s.threads[u], u, f))
  }

  lemma QuietThread(s: State, s': State, t: Tid, f: File, u: Tid)
    requires Quiet(s, s', t, f) && u < |s.threads| && u != t
    requires ThreadInv(s, u)
    ensures ThreadInv(s', u)
  {
    assert s'.threads[u] == s.threads[u];
    if FileMoved(s, s', t, f) { assert !HasClaim(s.threads[u], u, f); }
  }

  lemma QuietFile(s: State, s': State, t: Tid, f: File, g: File)
    requires Quiet(s, s', t, f)
    requires FileInv(s, g)
    ensures FileInv(s', g)
  {
    if g in s.pde.pdeos && s.pde.pdeos[g].c.Some? {
      assert s'.threads[s.pde.pdeos[g].c.value] == s.threads[s.pde.pdeos[g].c.value];
    }
  }

  /** A quiet step keeps the invariant once the counters and thread t itself are right. */
  lemma QuietFrame(s: State, s': State, t: Tid, f: File)
    requires Inv(s) && Quiet(s, s', t, f)
    requires CounterInv(s') && PhaseInv(s') && ThreadInv(s', t)
    ensures Inv(s')
  {
    Known(s, t, f);
    forall p ensures Holds(s', p) {
      match p
      case OfEntry => QuietEntry(s, s', t, f);
      case OfFile(g) =>
        Known(s, t, g);
        QuietFile(s, s', t, f, g);
      case OfThread(u) =>
        Known(s, u, f);
        if u != t && u < |s.threads| { QuietThread(s, s', t, f, u); }
    }
  }

  lemma QuietEntry(s: State, s': State, t: Tid, f: File)
    requires EntryInv(s) && Quiet(s, s', t, f) && CounterInv(s') && PhaseInv(s')
    ensures EntryInv(s')
  {
  }

  predicate SameFile(s: State, s': State, g: File) {
    && (g in s.files <==> g in s'.files) && (g in s.files ==> s'.files[g] == s.files[g])
    && (g in s.pde.pdeos <==> g in s'.pde.pdeos) && (g in s.pde.pdeos ==> s'.pde.pdeos[g] == s.pde.pdeos[g])
    && (g in s.owner <==> g in s'.owner) && (g in s.owner ==> s'.owner[g] == s.owner[g])
    && (g in s.recorded <==> g in s'.recorded)
    && s.releases[g] == s'.releases[g]
  }

  predicate OnFile(pc: Pc, f: File) {
    match pc
    case Idle => false
    case RunSet => false
    case RunAdd => false
    case RunWait => false
    case RunLock => false
    case RunLoop => false
    case _ => pc.file == f
  }

  // From s to s' only thread t moved, and it changed nothing about any file but f.
  ghost predicate Local(s: State, s': State, t: Tid, f: File) {
    && t < |s.threads| && |s'.threads| == |s.threads|
    && s'.threads == s.threads[t := s'.threads[t]]
    && (forall g :: g != f ==> SameFile(s, s', g) && !OnFile(s.threads[t], g))
    && (forall u :: u != t ==> (s.pde.lock == Some(u) <==> s'.pde.lock == Some(u)))
    && (s'.pde.lock.Some? ==> s'.pde.lock.value < |s.threads|)
    && (forall u :: 0 <= u < |s.threads| && u != t && !OnFile(s.threads[u], f) ==> (u in s.done <==> u in s'.done))
    && (forall u :: u in s'.done ==> u < |s.threads|)
    && s'.phase == s.phase
    && s'.pde.hasRelease == s.pde.hasRelease
  }

  lemma LocalThread(s: State, s': State, t: Tid, f: File, u: Tid)
    requires Local(s, s', t, f) && u < |s.threads| && u != t
    requires ThreadInv(s, u) && !OnFile(s.threads[u], f)
    ensures ThreadInv(s', u)
  {
    var pc := s.threads[u];
    assert s'.threads[u] == pc;
    if (!pc.Idle? && !InRundown(pc)) || InClosePdeo(pc) { assert SameFile(s, s', pc.file); }
  }

  lemma LocalFile(s: State, s': State, t: Tid, f: File, g: File)
    requires Local(s, s', t, f) && g != f
    requires FileInv(s, g)
    ensures FileInv(s', g)
  {
    assert SameFile(s, s', g) && !OnFile(s.threads[t], g);
    if g in s.pde.pdeos && s.pde.pdeos[g].c.Some? {
      var w := s.pde.pdeos[g].c.value;
      assert OnFile(s.threads[w], g) && !OnFile(s.threads[w], f);
    }
  }

  /** The same for a step that works on the record of file f. */
  lemma LocalFrame(s: State, s': State, t: Tid, f: File)
    requires Inv(s) && Local(s, s', t, f) && !s'.fault
    requires CounterInv(s') && PhaseInv(s') && ListInv(s') && FileInv(s', f) && ThreadInv(s', t)
    requires forall u :: 0 <= u < |s.threads| && u != t && OnFile(s.threads[u], f) ==> ThreadInv(s', u)
    ensures Inv(s')
  {
    forall p ensures Holds(s', p) {
      match p
      case OfEntry =>
      case OfFile(g) =>
        Known(s, t, g);
        if g != f { LocalFile(s, s', t, f, g); }
      case OfThread(u) =>
        Known(s, u, f);
        if u < |s.threads| && u != t && !OnFile(s.threads[u], f) { LocalThread(s, s', t, f, u); }
    }
  }

  // ---------- counters ----------

  /** A step of t that moves in_use together with its own active state keeps the counter equation. */
  lemma CounterStep(s: State, s': State, t: Tid)
    requires t < |s.threads| && CounterInv(s) && PhaseInv(s) && ThreadInv(s, t)
    requires |s'.threads| == |s.threads| && s'.threads == s.threads[t := s'.threads[t]] && s'.phase == s.phase
    requires forall r :: 0 <= r < |s.threads| && r != t && s.threads[r].RunWait? ==> (r in s.done <==> r in s'.done)
    requires !s.threads[t].RunSet? && !s.threads[t].RunAdd? && !s.threads[t].RunWait?
    requires !s'.threads[t].RunSet? && !s'.threads[t].RunAdd? && !s'.threads[t].RunWait?
    requires s'.pde.inUse == s.pde.inUse + ActiveWeight(s'.threads[t]) - ActiveWeight(s.threads[t])
    requires !s.threads[t].Signal?
    requires s'.threads[t].Signal? <==> Active(s.threads[t]) && !Active(s'.threads[t]) && s'.pde.inUse == BIAS
    requires Active(s'.threads[t]) && !Active(s.threads[t]) ==> s.pde.inUse >= 0
    ensures CounterInv(s')
  {
    Recount(s, t, s'.threads[t]);
  }

  /** The 32-bit counter never wraps: fewer threads than 2^31 can be inside at once. */
  lemma NoWrap(s: State, t: Tid)
    requires CounterInv(s) && t < |s.threads|
    ensures Actives(s) < MAX_THREADS
    ensures Active(s.threads[t]) ==> Wrap32(s.pde.inUse - 1) == s.pde.inUse - 1
    ensures !Active(s.threads[t]) && s.pde.inUse >= 0 ==> Wrap32(s.pde.inUse + 1) == s.pde.inUse + 1
    ensures !Active(s.threads[t]) ==> Actives(s) + 1 <= |s.threads|
    ensures s.pde.inUse < 0 <==> Biased(s)
  {
    Recount(s, t, Idle);
    Recount(s, t, ReadHook(0));
    SumAtMost(s.threads, ActiveWeight);
  }
}
