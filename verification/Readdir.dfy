/**
 * Listing the processes in /proc: next_tgid and proc_pid_readdir in
 * HamielecKarol/cw05/proc/base.c, while processes come and go at every moment.
 */
module Readdir {
  import opened Wrappers

  const FIRST_PROCESS_ENTRY: nat := 256
  const TGID_OFFSET: nat := FIRST_PROCESS_ENTRY + 2
  const PID_MAX_LIMIT: nat := 4 * 1024 * 1024
  const LAST: nat := PID_MAX_LIMIT + TGID_OFFSET

  // The system at one moment: which task has which pid, which tasks are thread group leaders, and
  // which of them the reader may see.
  datatype Moment = Moment(pids: map<nat, Option<nat>>, leaders: set<nat>, allowed: set<nat>)

  datatype Name = Self | ThreadSelf | Pid(tgid: nat)

  /** The directory position of a name. */
  function Key(name: Name): nat {
    match name
    case Self => FIRST_PROCESS_ENTRY
    case ThreadSelf => FIRST_PROCESS_ENTRY + 1
    case Pid(tgid) => tgid + TGID_OFFSET
  }

  /** find_ge_pid: the least pid in use from tgid on. */
  function FindGePid(pids: map<nat, Option<nat>>, tgid: nat): (r: Option<nat>)
    ensures r.Some? ==> tgid <= r.value < PID_MAX_LIMIT && r.value in pids
    ensures forall x :: tgid <= x < (if r.Some? then r.value else PID_MAX_LIMIT) ==> x !in pids
    decreases PID_MAX_LIMIT - tgid
  {
    if tgid >= PID_MAX_LIMIT then None
    else if tgid in pids then Some(tgid)
    else FindGePid(pids, tgid + 1)
  }

  // The moments at which the listing has looked at the system so far: from lo up to now.
  datatype Span = Span(at: nat -> Moment, lo: nat, now: nat)

  /** Process x is the visible group leader `task` whenever the listing looks. */
  ghost predicate Stays(s: Span, x: nat, task: nat) {
    x < PID_MAX_LIMIT && forall t: nat :: s.lo <= t < s.now ==> Visible(s.at(t), x, task)
  }

  predicate Visible(m: Moment, x: nat, task: nat) {
    x in m.pids && m.pids[x] == Some(task) && task in m.leaders && task in m.allowed
  }

  /** Names in order of their positions, all before pos. */
  ghost predicate Increasing(out: seq<Name>, pos: nat) {
    && (forall i, j :: 0 <= i < j < |out| ==> Key(out[i]) < Key(out[j]))
    && forall i :: 0 <= i < |out| ==> Key(out[i]) < pos
  }

  /** Nobody who stays is missing below tgid. */
  ghost predicate Covers(s: Span, out: seq<Name>, tgid: int) {
    forall x: nat, task: nat :: Stays(s, x, task) && x < tgid ==> Pid(x) in out
  }

  /** Nobody who stays is between the two pids, or behind `from` if there is no next task. */
  ghost predicate NobodyBetween(s: Span, from: nat, tgid: nat, task: Option<nat>) {
    forall x: nat, t: nat :: Stays(s, x, t) && from <= x ==> task.Some? && tgid <= x && (x == tgid ==> task.value == t)
  }

  ghost predicate NobodyBelow(s: Span, from: nat, tgid: nat) {
    forall x: nat, t: nat :: Stays(s, x, t) && from <= x ==> tgid <= x
  }

  function Later(s: Span, now: nat): Span { s.(now := now) }

  /** Who stays until later has stayed so far. */
  lemma {:induction false} StaysSoFar(s: Span, now: nat, x: nat, task: nat)
    requires s.now <= now && Stays(Later(s, now), x, task)
    ensures Stays(s, x, task)
  {
    forall t: nat | s.lo <= t < s.now ensures Visible(s.at(t), x, task) {
      assert Visible(Later(s, now).at(t), x, task);
    }
  }

  lemma {:induction false} StillBelow(s: Span, now: nat, from: nat, tgid: nat)
    requires s.now <= now && NobodyBelow(s, from, tgid)
    ensures NobodyBelow(Later(s, now), from, tgid)
  {
    forall x: nat, t: nat | Stays(Later(s, now), x, t) && from <= x ensures tgid <= x { StaysSoFar(s, now, x, t); }
  }

  /** Looking for the next pid passes over nobody who stays. */
  lemma {:induction false} NextStays(s: Span, when: nat, from: nat, tgid: nat)
    requires NobodyBelow(s, from, tgid) && s.lo <= when < s.now
    ensures var pid := FindGePid(s.at(when).pids, tgid);
      if pid.Some? then NobodyBelow(s, from, pid.value) else NobodyBetween(s, from, tgid, None)
  {
    forall x: nat, t: nat | Stays(s, x, t) ensures x in s.at(when).pids { assert Visible(s.at(when), x, t); }
  }

  /** A pid whose task is gone, or whose task does not lead a group, is nobody who stays. */
  lemma {:induction false} NotStaying(s: Span, when: nat, from: nat, tgid: nat)
    requires NobodyBelow(s, from, tgid) && s.lo <= when && when + 1 < s.now
    requires forall task :: !Found(s.at, when, tgid, task)
    ensures NobodyBelow(s, from, tgid + 1)
  {
    forall x: nat, t: nat | Stays(s, x, t) && from <= x ensures tgid < x {
      assert Visible(s.at(when), x, t) && Visible(s.at(when + 1), x, t);
      assert !Found(s.at, when, tgid, t);
    }
  }

  /** The task found under a pid is the one of the process that stays there. */
  lemma {:induction false} FoundStaying(s: Span, when: nat, from: nat, tgid: nat, task: nat)
    requires NobodyBelow(s, from, tgid) && s.lo <= when < s.now && Found(s.at, when, tgid, task)
    ensures NobodyBetween(s, from, tgid, Some(task))
  {
    forall x: nat, t: nat | Stays(s, x, t) && x == tgid ensures t == task { assert Visible(s.at(when), x, t); }
  }

  /** The two looks of next_tgid: x was the pid of task, and at the next look task led a group. */
  predicate Found(at: nat -> Moment, when: nat, x: nat, task: nat) {
    x in at(when).pids && at(when).pids[x] == Some(task) && task in at(when + 1).leaders
  }

  /** At three looks in a row x was the pid of a task, which led a group, and could be seen. */
  ghost predicate Vouched(at: nat -> Moment, when: nat, x: nat) {
    exists task: nat :: Found(at, when, x, task) && task in at(when + 2).allowed
  }

  ghost predicate Listable(s: Span, x: nat) {
    exists when: nat :: s.lo <= when && when + 2 < s.now && Vouched(s.at, when, x)
  }

  /** Only pids of group leaders that the reader was allowed to see are listed. */
  ghost predicate Sound(s: Span, out: seq<Name>) {
    forall i :: 0 <= i < |out| && out[i].Pid? ==> Listable(s, out[i].tgid)
  }

  /** What the last two looks have shown of the process that the iterator is at. */
  ghost predicate Current(s: Span, tgid: nat, task: Option<nat>) {
    match task
    case None => true
    case Some(t) => tgid < PID_MAX_LIMIT && s.lo + 2 <= s.now && Found(s.at, s.now - 2, tgid, t)
  }

  /**
   * After the last call every process that was a visible leader whenever the listing looked is
   * listed exactly once, whatever becomes of it afterwards.
   */
  lemma {:induction false} CompleteListing(s: Span, out: seq<Name>, pos: nat, x: nat, task: nat)
    requires Done(Listing(s, out, pos)) && pos >= LAST && Stays(s, x, task)
    ensures multiset(out)[Pid(x)] == 1
  {
    IncreasingOnce(out, pos, Pid(x));
  }

  /** The two links are listed once their positions have been passed. */
  predicate Linked(out: seq<Name>, pos: nat) {
    (pos > FIRST_PROCESS_ENTRY ==> Self in out) && (pos > FIRST_PROCESS_ENTRY + 1 ==> ThreadSelf in out)
  }

  /** After the last call each of the two links is listed exactly once. */
  lemma {:induction false} LinksListed(s: Span, out: seq<Name>, pos: nat)
    requires Done(Listing(s, out, pos)) && pos >= LAST
    ensures multiset(out)[Self] == 1 && multiset(out)[ThreadSelf] == 1
  {
    IncreasingOnce(out, pos, Self);
    IncreasingOnce(out, pos, ThreadSelf);
  }

  /**
   * A pid in the listing was, at one look, that of a task, which at the next look led a thread
   * group, and which the reader was allowed to see at the look after that.
   */
  lemma {:induction false} ListedLeads(s: Span, out: seq<Name>, pos: nat, x: nat) returns (when: nat, task: nat)
    requires Done(Listing(s, out, pos)) && Pid(x) in out
    ensures s.lo <= when && when + 2 < s.now
    ensures x in s.at(when).pids && s.at(when).pids[x] == Some(task)
    ensures task in s.at(when + 1).leaders && task in s.at(when + 2).allowed
  {
    var i :| 0 <= i < |out| && out[i] == Pid(x);
    assert Listable(s, out[i].tgid);
    when :| s.lo <= when && when + 2 < s.now && Vouched(s.at, when, x);
    task :| Found(s.at, when, x, task) && task in s.at(when + 2).allowed;
  }

  // The names listed so far, with everything before directory position pos done.
  datatype Listing = Listing(s: Span, out: seq<Name>, pos: nat)

  ghost predicate Done(l: Listing) {
    match l
    case Listing(s, out, pos) => Sound(s, out) && Increasing(out, pos) && Covers(s, out, pos - TGID_OFFSET)
                                   && Linked(out, pos)
  }

  lemma {:induction false} StillSound(s: Span, now: nat, out: seq<Name>)
    requires Sound(s, out) && s.now <= now
    ensures Sound(Later(s, now), out)
  {
    forall i | 0 <= i < |out| && out[i].Pid? ensures Listable(Later(s, now), out[i].tgid) {
      var when: nat :| s.lo <= when && when + 2 < s.now && Vouched(s.at, when, out[i].tgid);
    }
  }

  lemma {:induction false} StillCovers(s: Span, now: nat, out: seq<Name>, tgid: int)
    requires Covers(s, out, tgid) && s.now <= now
    ensures Covers(Later(s, now), out, tgid)
  {
    forall x: nat, t: nat | Stays(Later(s, now), x, t) && x < tgid ensures Pid(x) in out { StaysSoFar(s, now, x, t); }
  }

  /** From one process to the next, with the looks that took. */
  lemma {:induction false} DoneOn(s: Span, now: nat, out: seq<Name>, from: nat, tgid: nat, task: Option<nat>)
    requires Done(Listing(s, out, from + TGID_OFFSET)) && s.now <= now && from <= tgid && from <= PID_MAX_LIMIT
    requires NobodyBetween(Later(s, now), from, tgid, task)
    ensures Done(Listing(Later(s, now), out, if task.Some? then tgid + TGID_OFFSET else LAST))
  {
    StillSound(s, now, out);
    StillCovers(s, now, out, from);
  }

  /** A process that the reader may not see is done when it is skipped. */
  lemma {:induction false} DoneSkip(s: Span, out: seq<Name>, tgid: nat, task: nat)
    requires Done(Listing(s, out, tgid + TGID_OFFSET)) && Current(s, tgid, Some(task))
    requires task !in s.at(s.now).allowed
    ensures Done(Listing(Later(s, s.now + 1), out, tgid + 1 + TGID_OFFSET))
  {
    var z := Later(s, s.now + 1);
    StillSound(s, s.now + 1, out);
    forall x: nat, t: nat | Stays(z, x, t) && x < tgid + 1 ensures Pid(x) in out {
      StaysSoFar(s, s.now + 1, x, t);
      assert Visible(z.at(s.now - 2), x, t) && Visible(z.at(s.now), x, t);
    }
  }

  /** A process that the reader may see has been vouched for by the three last looks. */
  lemma {:induction false} DoneSee(s: Span, out: seq<Name>, tgid: nat, task: nat)
    requires Done(Listing(s, out, tgid + TGID_OFFSET)) && Current(s, tgid, Some(task))
    requires task in s.at(s.now).allowed
    ensures var z := Later(s, s.now + 1); Done(Listing(z, out, tgid + TGID_OFFSET)) && Listable(z, tgid)
  {
    StillSound(s, s.now + 1, out);
    StillCovers(s, s.now + 1, out, tgid);
    assert Vouched(s.at, s.now - 2, tgid);
  }

  /** A process that was listed is done. */
  lemma {:induction false} DoneList(s: Span, was: seq<Name>, tgid: nat)
    requires Done(Listing(s, was, tgid + TGID_OFFSET)) && Listable(s, tgid)
    ensures Done(Listing(s, was + [Pid(tgid)], tgid + 1 + TGID_OFFSET))
  {
    var out := was + [Pid(tgid)];
    forall x: nat, t: nat | Stays(s, x, t) && x < tgid + 1 ensures Pid(x) in out {
      assert out[|was|] == Pid(tgid);
      if x < tgid { assert Pid(x) in was; }
    }
  }

  lemma {:induction false} IncreasingOnce(out: seq<Name>, pos: nat, name: Name)
    requires Increasing(out, pos)
    ensures multiset(out)[name] <= 1 && (multiset(out)[name] == 1 <==> name in out)
  {
    if out != [] {
      var n := |out| - 1;
      assert out == out[..n] + [out[n]];
      forall i, j | 0 <= i < j < n ensures Key(out[..n][i]) < Key(out[..n][j]) {
        assert out[..n][i] == out[i] && out[..n][j] == out[j];
      }
      forall i | 0 <= i < n ensures Key(out[..n][i]) < Key(out[n]) { assert out[..n][i] == out[i]; }
      IncreasingOnce(out[..n], Key(out[n]), name);
    }
  }

  /** The reference that an iterator holds. */
  function Ref(task: Option<nat>): multiset<nat> {
    match task
    case None => multiset{}
    case Some(t) => multiset{t}
  }

  class Directory {
    const at: nat -> Moment
    const room: nat -> bool
    const start: nat
    var now: nat
    var tries: nat
    var held: multiset<nat>
    var out: seq<Name>
    var pos: nat

    // Every look at the system happens at a later moment; room says which calls of dir_emit find
    // room in the reader's buffer.

    constructor (at: nat -> Moment, room: nat -> bool, start: nat)
      ensures this.at == at && this.room == room && this.start == start
      ensures held == multiset{} && out == [] && pos == FIRST_PROCESS_ENTRY && Listed()
    {
      this.at, this.room, this.start := at, room, start;
      now, tries, held, out, pos := start, 0, multiset{}, [], FIRST_PROCESS_ENTRY;
    }

    ghost function Looked(): Span
      reads this
    {
      Span(at, start, now)
    }

    method Look() returns (m: Moment)
      modifies this`now
      ensures m == at(old(now)) && now == old(now) + 1
    {
      m := at(now);
      now := now + 1;
    }

    method GetTaskStruct(task: nat)
      modifies this`held
      ensures held == old(held) + multiset{task}
    {
      held := held + multiset{task};
    }

    method PutTaskStruct(task: nat)
      requires task in held
      modifies this`held
      ensures held == old(held) - multiset{task}
    {
      held := held - multiset{task};
    }

    /** pid_task and has_group_leader_pid. */
    method LeaderOf(tgid: nat) returns (task: Option<nat>)
      modifies this`now
      ensures now == old(now) + 2
      ensures match task
              case Some(t) => Found(at, old(now), tgid, t)
              case None => forall t :: !Found(at, old(now), tgid, t)
    {
      var m := Look();
      var m2 := Look();
      task := if tgid in m.pids then m.pids[tgid] else None;
      if task.Some? && task.value !in m2.leaders { task := None; }
    }

    /** One round of retry: the task of the next pid in use, if it leads a group. */
    method TryNext(tgid0: nat, tgid1: nat) returns (tgid: nat, pid: Option<nat>, task: Option<nat>)
      requires start <= now && NobodyBelow(Looked(), tgid0, tgid1) && tgid0 <= tgid1
      modifies this`now
      ensures old(now) <= now && tgid1 <= tgid && (pid.Some? ==> tgid < PID_MAX_LIMIT)
      ensures pid.None? ==> NobodyBetween(Looked(), tgid0, tgid, None)
      ensures pid.Some? && task.None? ==> NobodyBelow(Looked(), tgid0, tgid + 1)
      ensures pid.Some? && task.Some? ==> NobodyBetween(Looked(), tgid0, tgid, task) && Current(Looked(), tgid, task)
    {
      ghost var was := Looked();
      var m := Look();
      pid := FindGePid(m.pids, tgid1);
      StillBelow(was, now, tgid0, tgid1);
      NextStays(Looked(), was.now, tgid0, tgid1);
      if pid.None? { return tgid1, None, None; }
      tgid := pid.value;
      StillBelow(Looked(), now + 2, tgid0, tgid);
      task := LeaderOf(tgid);
      if task.Some? { FoundStaying(Looked(), was.now + 1, tgid0, tgid, task.value); }
      else { NotStaying(Looked(), was.now + 1, tgid0, tgid); }
    }

    /** Moves to the next group leader from tgid on and passes over nobody who stays. */
    method NextTgid(tgid0: nat, task0: Option<nat>, ghost others: multiset<nat>) returns (tgid: nat, task: Option<nat>)
      requires held == others + Ref(task0) && start <= now
      modifies this`now, this`held
      ensures old(now) <= now && tgid0 <= tgid && held == others + Ref(task)
      ensures NobodyBetween(Looked(), tgid0, tgid, task) && Current(Looked(), tgid, task)
    {
      tgid := tgid0;
      if task0.Some? { PutTaskStruct(task0.value); }
      assert held == others;
      while true
        invariant old(now) <= now && tgid0 <= tgid && held == others
        invariant NobodyBelow(Looked(), tgid0, tgid)
        decreases PID_MAX_LIMIT - tgid
      {
        var pid;
        tgid, pid, task := TryNext(tgid0, tgid);
        if pid.None? { return tgid, None; }
        if task.Some? {
          GetTaskStruct(task.value);
          return;
        }
        tgid := tgid + 1;
      }
    }

    /** dir_emit. */
    method DirEmit(name: Name) returns (ok: bool)
      modifies this`tries, this`out
      ensures out == if ok then old(out) + [name] else old(out)
      ensures tries == old(tries) + 1 && ok == room(old(tries))
    {
      ok := room(tries);
      tries := tries + 1;
      if ok { out := out + [name]; }
    }

    /** The last call of dir_emit found no room. */
    ghost predicate Refused()
      reads this
    {
      tries > 0 && !room(tries - 1)
    }

    /** What holds between calls. */
    ghost predicate Listed()
      reads this
    {
      FIRST_PROCESS_ENTRY <= pos && start <= now && Done(Listing(Looked(), out, pos))
    }

    /** The two links before the processes. */
    method EmitLink(name: Name) returns (ok: bool)
      requires Listed() && !name.Pid? && pos == Key(name)
      modifies this`tries, this`out, this`pos
      ensures Listed() && old(out) <= out && (!ok ==> Refused())
      ensures pos == if ok then old(pos) + 1 else old(pos)
    {
      ok := DirEmit(name);
      if ok { pos := pos + 1; }
    }

    /** The listing is done below tgid. */
    ghost predicate ListedBelow(tgid: nat)
      reads this
    {
      start <= now && Done(Listing(Looked(), out, tgid + TGID_OFFSET))
    }

    /** proc_fill_cache at the position of the process. */
    method EmitProcess(tgid: nat) returns (ok: bool)
      requires ListedBelow(tgid) && Listable(Looked(), tgid)
      modifies this`tries, this`out
      ensures old(out) <= out && ListedBelow(if ok then tgid + 1 else tgid) && (!ok ==> Refused())
    {
      ghost var was := out;
      ok := DirEmit(Pid(tgid));
      if ok { DoneList(Looked(), was, tgid); }
    }

    /** has_pid_permissions: a process that may not be seen is done at once. */
    method HasPidPermissions(tgid: nat, task: nat) returns (ok: bool)
      requires ListedBelow(tgid) && Current(Looked(), tgid, Some(task))
      modifies this`now
      ensures if ok then ListedBelow(tgid) && Listable(Looked(), tgid) else ListedBelow(tgid + 1)
    {
      ghost var was := Looked();
      var m := Look();
      ok := task in m.allowed;
      assert Looked() == Later(was, was.now + 1);
      if ok { DoneSee(was, out, tgid, task); } else { DoneSkip(was, out, tgid, task); }
    }

    /** The body of the loop for one process. */
    method Visit(tgid: nat, task: nat) returns (ok: bool)
      requires ListedBelow(tgid) && Current(Looked(), tgid, Some(task))
      modifies this`now, this`tries, this`out, this`pos
      ensures old(out) <= out && (pos == old(pos) || pos == tgid + TGID_OFFSET)
      ensures if ok then ListedBelow(tgid + 1) else Listed() && Refused()
    {
      var seen := HasPidPermissions(tgid, task);
      if !seen { return true; }
      pos := tgid + TGID_OFFSET;
      ok := EmitProcess(tgid);
    }

    /** next_tgid in the loop: the listing is done up to the next process. */
    method Advance(tgid0: nat, task0: Option<nat>, ghost others: multiset<nat>) returns (tgid: nat, task: Option<nat>)
      requires held == others + Ref(task0) && tgid0 <= PID_MAX_LIMIT && ListedBelow(tgid0)
      modifies this`now, this`held
      ensures tgid0 <= tgid && held == others + Ref(task) && Current(Looked(), tgid, task)
      ensures ListedBelow(if task.Some? then tgid else PID_MAX_LIMIT)
    {
      ghost var was := Looked();
      tgid, task := NextTgid(tgid0, task0, others);
      DoneOn(was, now, out, tgid0, tgid, task);
    }

    /**
     * proc_pid_readdir: whatever happens to the processes meanwhile, the listing stays in order,
     * misses nobody who was there at every look so far, and every task reference that was taken
     * is put.  The call ends at the end of the listing, or when the reader has no room for the
     * next name.
     */
    method ProcPidReaddir()
      requires Listed()
      modifies this
      ensures Listed() && held == old(held) && old(out) <= out && old(pos) <= pos
      ensures pos >= LAST || Refused()
    {
      if pos >= PID_MAX_LIMIT + TGID_OFFSET { return; }
      var ok;
      if pos == TGID_OFFSET - 2 {
        ok := EmitLink(Self);
        if !ok { return; }
      }
      if pos == TGID_OFFSET - 1 {
        ok := EmitLink(ThreadSelf);
        if !ok { return; }
      }
      ListProcesses(pos - TGID_OFFSET);
    }

    // The state of the loop over the processes, at the process that the iterator is at.
    ghost predicate AtProcess(tgid: nat, task: Option<nat>, others: multiset<nat>)
      reads this
    {
      && held == others + Ref(task) && Current(Looked(), tgid, task)
      && ListedBelow(if task.Some? then tgid else PID_MAX_LIMIT)
      && FIRST_PROCESS_ENTRY <= pos && (task.Some? ==> pos <= tgid + TGID_OFFSET)
    }

    /** One turn of the loop, up to the next process. */
    method Turn(tgid0: nat, task0: nat, ghost others: multiset<nat>) returns (ok: bool, tgid: nat, task: Option<nat>)
      requires AtProcess(tgid0, Some(task0), others)
      modifies this`now, this`tries, this`held, this`out, this`pos
      ensures old(out) <= out && old(pos) <= pos
      ensures if ok then AtProcess(tgid, task, others) && tgid0 < tgid else Listed() && held == others && Refused()
    {
      ok := Visit(tgid0, task0);
      if !ok {
        PutTaskStruct(task0);
        return ok, tgid0, None;
      }
      tgid, task := Advance(tgid0 + 1, Some(task0), others);
    }

    /** The loop over the processes. */
    method ListProcesses(tgid0: nat)
      requires Listed() && pos == tgid0 + TGID_OFFSET && tgid0 < PID_MAX_LIMIT
      modifies this
      ensures Listed() && held == old(held) && old(out) <= out && old(pos) <= pos
      ensures pos >= LAST || Refused()
    {
      ghost var others := held;
      var tgid: nat, task: Option<nat> := Advance(tgid0, None, others);
      while task.Some?
        invariant AtProcess(tgid, task, others)
        invariant old(out) <= out && old(pos) <= pos
        decreases if task.Some? then PID_MAX_LIMIT - tgid else -1
      {
        var ok;
        ok, tgid, task := Turn(tgid, task.value, others);
        if !ok { return; }
      }
      pos := PID_MAX_LIMIT + TGID_OFFSET;
    }
  }
}
