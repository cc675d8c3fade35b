/**
 * /proc/pid/cmdline: proc_pid_cmdline_read in HamielecKarol/cw05/proc/base.c.  The command line
 * is the argument area or, if its last byte is not NUL, one string that may go on in the
 * environment area.
 */
module Cmdline {
  import opened Wrappers
  import opened Seqs
  import opened Oldmem

  const ESRCH: int := 3

  // mem is the memory of the process, None where it cannot be read.
  datatype Mm = Mm(argStart: nat, argEnd: nat, envStart: nat, envEnd: nat, mem: nat -> Option<byte>)

  predicate WellFormed(mm: Mm) { mm.argStart <= mm.argEnd && mm.envStart <= mm.envEnd }

  function Len1(mm: Mm): nat
    requires WellFormed(mm)
  {
    mm.argEnd - mm.argStart
  }

  function Len2(mm: Mm): nat
    requires WellFormed(mm)
  {
    mm.envEnd - mm.envStart
  }

  /** The bytes from p on, at most n, up to an unreadable one or, if asked, up to a NUL. */
  function Run(f: nat -> Option<byte>, p: nat, n: nat, stop: bool): (r: seq<byte>)
    ensures |r| <= n
    decreases n
  {
    if n == 0 || f(p).None? || (stop && f(p) == Some(0)) then []
    else [f(p).value] + Run(f, p + 1, n - 1, stop)
  }

  lemma {:induction false} RunSame(f: nat -> Option<byte>, p: nat, g: nat -> Option<byte>, q: nat, n: nat, stop: bool)
    requires forall i: nat {:trigger f(i)} :: p <= i < p + n ==> f(i) == g(i - p + q)
    ensures Run(f, p, n, stop) == Run(g, q, n, stop)
    decreases n
  {
    if n > 0 {
      assert f(p) == g(p - p + q);
      RunSame(f, p + 1, g, q + 1, n - 1, stop);
    }
  }

  /** A run that stops early stops for good; one that does not goes on. */
  lemma {:induction false} RunJoin(f: nat -> Option<byte>, p: nat, a: nat, b: nat, stop: bool)
    ensures Run(f, p, a + b, stop) ==
            if |Run(f, p, a, stop)| < a then Run(f, p, a, stop) else Run(f, p, a, stop) + Run(f, p + a, b, stop)
    decreases a
  {
    if a > 0 && f(p).Some? && !(stop && f(p) == Some(0)) { RunJoin(f, p + 1, a - 1, b, stop); }
  }

  lemma {:induction false} RunAt(f: nat -> Option<byte>, p: nat, n: nat, stop: bool, i: nat)
    requires i < |Run(f, p, n, stop)|
    ensures Run(f, p, n, stop)[i..] == Run(f, p + i, n - i, stop)
    ensures f(p + i) == Some(Run(f, p, n, stop)[i])
    decreases i
  {
    if i > 0 {
      RunAt(f, p + 1, n - 1, stop, i - 1);
      assert Run(f, p, n, stop)[i..] == Run(f, p, n, stop)[1..][i - 1..];
    }
  }

  // ---------- reading the memory ----------

  /** access_remote_vm: the readable bytes at the front of the range. */
  method AccessRemoteVm(mem: nat -> Option<byte>, p: nat, count: nat) returns (page: seq<byte>)
    ensures page == Run(mem, p, count, false)
  {
    page := [];
    var i := 0;
    while i < count && mem(p + i).Some?
      invariant i <= count && |page| == i && Run(mem, p, count, false) == page + Run(mem, p + i, count - i, false)
    {
      page := page + [mem(p + i).value];
      i := i + 1;
    }
  }

  /** The first l bytes of page are text and end at its first NUL, or at its end. */
  ghost predicate TextEnds(page: seq<byte>, l: nat) {
    l <= |page| && 0 !in page[..l] && (l < |page| ==> page[l] == 0)
  }

  /** strnlen: the length of page up to its first NUL. */
  method Strnlen(page: seq<byte>) returns (l: nat)
    ensures l <= |page| && TextEnds(page, l)
  {
    l := 0;
    while l < |page| && page[l] != 0
      invariant l <= |page| && 0 !in page[..l]
    {
      l := l + 1;
    }
  }

  /** What one turn of the loop finds: a page without NUL is a run with or without stopping at NULs. */
  lemma {:induction false} PageStep(f: nat -> Option<byte>, p: nat, m: nat, k: nat, page: seq<byte>, l: nat, stop: bool)
    requires k <= m && page == Run(f, p, k, false) && l <= |page|
    requires if stop then TextEnds(page, l) else l == |page|
    ensures Run(f, p, m, stop) == page[..l] + Run(f, p + l, m - l, stop)
    ensures l < |page| ==> Run(f, p + l, m - l, stop) == []
    decreases l
  {
    if l > 0 {
      var rest := page[1..];
      assert rest == Run(f, p + 1, k - 1, false) && rest[..l - 1] == page[1..l];
      PageStep(f, p + 1, m - 1, k - 1, rest, l - 1, stop);
      RunFirst(f, p, m, stop, page[0], rest[..l - 1], Run(f, p + l, m - l, stop));
      assert page[..l] == [page[0]] + rest[..l - 1];
    }
  }

  lemma {:induction false} RunFirst(f: nat -> Option<byte>, p: nat, m: nat, stop: bool, b: byte, x: seq<byte>,
                                    y: seq<byte>)
    requires m > 0 && f(p) == Some(b) && (stop ==> b != 0) && Run(f, p + 1, m - 1, stop) == x + y
    ensures Run(f, p, m, stop) == [b] + x + y
  {
    Associative([b], x, y);
  }

  // A run of `want` bytes from address p0 on, to be copied into a buffer that held was.
  datatype Job = Job(mem: nat -> Option<byte>, p0: nat, want: nat, stop: bool, was: seq<byte>, at: nat) {
    function All(): seq<byte> { Run(mem, p0, want, stop) }
  }

  /** The state of the loop: n bytes are copied, which are the front of the whole run. */
  ghost predicate Copying(j: Job, now: seq<byte>, n: nat) {
    && n <= j.want && n <= |j.All()| && j.at + j.want <= |j.was| == |now|
    && forall k: nat :: Stored(j, now, n, k)
  }

  /** Cell k of the buffer. */
  ghost predicate Stored(j: Job, now: seq<byte>, n: nat, k: nat) {
    k < |j.was| && |j.was| == |now| && n <= |j.All()| ==>
      now[k] == if j.at <= k < j.at + n then j.All()[k - j.at] else j.was[k]
  }

  /** What is still to be copied. */
  lemma {:induction false} CopyRest(j: Job, n: nat)
    requires n <= j.want && n <= |j.All()|
    ensures j.All()[n..] == Run(j.mem, j.p0 + n, j.want - n, j.stop)
  {
    RunJoin(j.mem, j.p0, n, j.want - n, j.stop);
  }

  /** One turn of the loop, with m bytes to go. */
  method CopyPage(mem: nat -> Option<byte>, p: nat, m: nat, buf: array<byte>, at: nat, n: nat, stop: bool, ghost j: Job)
    returns (l: nat, out: bool)
    requires m > 0 && p == j.p0 + n && j.want == n + m && j.mem == mem && j.stop == stop && j.at == at
    requires Copying(j, buf[..], n)
    modifies buf
    ensures l <= m && Copying(j, buf[..], n + l)
    ensures out ==> n + l == |j.All()| < j.want
    ensures !out ==> l > 0
  {
    var k := Min(m, PAGE_SIZE);
    var page := AccessRemoteVm(mem, p, k);
    l := |page|;
    if stop { l := Strnlen(page); }
    PageCopied(j, buf[..], n, k, page, l);
    if |page| == 0 { return 0, true; }
    out := l < |page|;
    CopyTo(buf, at + n, page[..l]);
  }

  /** What the turn with the given page does to the state of the loop. */
  lemma {:induction false} PageCopied(j: Job, now: seq<byte>, n: nat, k: nat, page: seq<byte>, l: nat)
    requires Copying(j, now, n) && 0 < k <= j.want - n
    requires page == Run(j.mem, j.p0 + n, k, false) && l <= |page|
    requires if j.stop then TextEnds(page, l) else l == |page|
    ensures n + l <= j.want && j.at + n + l <= |now| && Copying(j, Splice(now, j.at + n, page[..l]), n + l)
    ensures l < |page| ==> n + l == |j.All()| < j.want
    ensures page == [] ==> n == |j.All()| < j.want
  {
    if page == [] { NothingMore(j, now, n, k); }
    PageStep(j.mem, j.p0 + n, j.want - n, k, page, l, j.stop);
    CopyingNext(j, now, n, page[..l], j.p0 + n, j.want - n, l);
  }

  lemma {:induction false} NothingMore(j: Job, now: seq<byte>, n: nat, k: nat)
    requires Copying(j, now, n) && n < j.want && k > 0 && Run(j.mem, j.p0 + n, k, false) == []
    ensures n == |j.All()|
  {
    assert j.mem(j.p0 + n).None?;
    CopyRest(j, n);
    assert j.All()[n..] == [];
  }

  lemma {:induction false} CopyingNext(j: Job, now: seq<byte>, n: nat, x: seq<byte>, p: nat, m: nat, l: nat)
    requires Copying(j, now, n) && n + l <= j.want && l == |x| && p == j.p0 + n && m == j.want - n
    requires Run(j.mem, p, m, j.stop) == x + Run(j.mem, p + l, m - l, j.stop)
    ensures n + l <= |j.All()| && j.at + n + l <= |now| && Copying(j, Splice(now, j.at + n, x), n + l)
    ensures Run(j.mem, p + l, m - l, j.stop) == [] ==> n + l == |j.All()|
  {
    CopyRest(j, n);
    CopiedMore(j, now, n, x, Run(j.mem, p + l, m - l, j.stop));
  }

  lemma {:induction false} CopiedMore(j: Job, now: seq<byte>, n: nat, x: seq<byte>, rest: seq<byte>)
    requires Copying(j, now, n) && n + |x| <= j.want && j.All()[n..] == x + rest
    ensures n + |x| + |rest| == |j.All()|
    ensures j.at + n + |x| <= |now| && Copying(j, Splice(now, j.at + n, x), n + |x|)
  {
    var all := j.All();
    assert |all[n..]| == |x + rest|;
    var z, next := Splice(now, j.at + n, x), n + |x|;
    forall k: nat ensures Stored(j, z, next, k) {
      assert Stored(j, now, n, k);
      if j.at + n <= k < j.at + n + |x| { assert all[n..][k - (j.at + n)] == x[k - (j.at + n)]; }
    }
  }

  /** The loop of the code, three times over: copies a run of len bytes from address p0 on, page by page. */
  method CopyRun(mem: nat -> Option<byte>, p0: nat, len0: nat, buf: array<byte>, at: nat, count0: nat, stop: bool)
    returns (n: nat, out: bool)
    requires at + count0 <= buf.Length
    modifies buf
    ensures buf[..] == Splice(old(buf[..]), at, Run(mem, p0, Min(count0, len0), stop))
    ensures n == |Run(mem, p0, Min(count0, len0), stop)|
    ensures out <==> n < Min(count0, len0)
  {
    n, out := CopyJob(mem, p0, len0, buf, at, count0, stop, Job(mem, p0, Min(count0, len0), stop, buf[..], at));
  }

  method CopyJob(mem: nat -> Option<byte>, p0: nat, len0: nat, buf: array<byte>, at: nat, count0: nat, stop: bool,
                 ghost j: Job)
    returns (n: nat, out: bool)
    requires at + count0 <= buf.Length && j.was == buf[..] && j.want == Min(count0, len0)
    requires j.mem == mem && j.p0 == p0 && j.stop == stop && j.at == at
    modifies buf
    ensures n == |j.All()| && buf[..] == Splice(j.was, at, j.All()) && (out <==> n < j.want)
  {
    var p, len, count := p0, len0, count0;
    n, out := 0, false;
    NothingCopied(j);
    while count > 0 && len > 0
      invariant n + count == count0 && n + len == len0 && p == p0 + n
      invariant Copying(j, buf[..], n) && !out
    {
      var l;
      l, out := CopyPage(mem, p, Min(count, len), buf, at, n, stop, j);
      p, len, count, n := p + l, len - l, count - l, n + l;
      if out { break; }
    }
    AllCopied(j, buf[..], n);
  }

  lemma {:induction false} NothingCopied(j: Job)
    requires j.at + j.want <= |j.was|
    ensures Copying(j, j.was, 0)
  {
  }

  lemma {:induction false} AllCopied(j: Job, now: seq<byte>, n: nat)
    requires Copying(j, now, n) && (n == j.want || n == |j.All()|)
    ensures n == |j.All()| && now == Splice(j.was, j.at, j.All())
  {
    var z := Splice(j.was, j.at, j.All());
    forall k | 0 <= k < |now| ensures now[k] == z[k] { assert Stored(j, now, n, k); }
  }

  lemma {:induction false} SpliceMore(was: seq<byte>, at: nat, done: seq<byte>, x: seq<byte>)
    requires at + |done| + |x| <= |was|
    ensures Splice(Splice(was, at, done), at + |done|, x) == Splice(was, at, done + x)
  {
  }

  // ---------- the file ----------

  /** The byte at position q of the two areas, one behind the other. */
  function At(mm: Mm, q: nat): Option<byte>
    requires WellFormed(mm)
  {
    if q < Len1(mm) then mm.mem(mm.argStart + q) else mm.mem(mm.envStart + (q - Len1(mm)))
  }

  /** The two areas as one. */
  function Areas(mm: Mm): nat -> Option<byte>
    requires WellFormed(mm)
  {
    (q: nat) => At(mm, q)
  }

  /** The last byte of the arguments is no NUL: the command line is one string. */
  predicate OneString(mm: Mm)
    requires WellFormed(mm)
  {
    mm.argEnd > 0 && mm.mem(mm.argEnd - 1) != Some(0)
  }

  /** How far the command line may reach. */
  function Total(mm: Mm): nat
    requires WellFormed(mm)
  {
    if OneString(mm) then Len1(mm) + Len2(mm) else Len1(mm)
  }

  /** There is something to read: arguments, their last byte readable. */
  predicate Present(mm: Mm)
    requires WellFormed(mm)
  {
    mm.envEnd != 0 && Len1(mm) > 0 && mm.mem(mm.argEnd - 1).Some?
  }

  /** What a read of count bytes at pos delivers. */
  function Answer(mm: Mm, pos: nat, count: nat): seq<byte>
    requires WellFormed(mm)
  {
    if !Present(mm) || Total(mm) <= pos then []
    else Run(Areas(mm), pos, Min(count, Total(mm) - pos), OneString(mm))
  }

  /** The command line as one string of bytes. */
  function Line(mm: Mm): seq<byte>
    requires WellFormed(mm)
  {
    Answer(mm, 0, Total(mm))
  }

  /** A stretch of one area is a stretch of the positions. */
  lemma {:induction false} AreaRun(mm: Mm, pos: nat, n: nat, stop: bool)
    requires WellFormed(mm)
    ensures pos + n <= Len1(mm) ==> Run(mm.mem, mm.argStart + pos, n, stop) == Run(Areas(mm), pos, n, stop)
    ensures Len1(mm) <= pos ==> Run(mm.mem, mm.envStart + (pos - Len1(mm)), n, stop) == Run(Areas(mm), pos, n, stop)
    decreases n
  {
    if n > 0 { AreaRun(mm, pos + 1, n - 1, stop); }
  }

  /** proc_pid_cmdline_read: exactly the answer, and the position advances by its length. */
  method CmdlineRead(task: Option<Option<Mm>>, buf: array<byte>, count0: nat, pos0: nat) returns (rv: int, pos: nat)
    requires task.Some? && task.value.Some? ==> WellFormed(task.value.value)
    requires count0 <= buf.Length
    modifies buf
    ensures task.None? ==> rv == -ESRCH
    ensures task == Some(None) ==> rv == 0
    ensures task.None? || task == Some(None) ==> buf[..] == old(buf[..]) && pos == pos0
    ensures task.Some? && task.value.Some? ==>
      var x := Answer(task.value.value, pos0, count0);
      rv == |x| && pos == pos0 + rv && buf[..] == Splice(old(buf[..]), 0, x)
  {
    if task.None? { return -ESRCH, pos0; }
    if task.value.None? { return 0, pos0; }
    var mm := task.value.value;
    assert buf[..] == Splice(buf[..], 0, []);
    if mm.envEnd == 0 { return 0, pos0; }
    var len1, len2 := mm.argEnd - mm.argStart, mm.envEnd - mm.envStart;
    if len1 == 0 { return 0, pos0; }
    var c := AccessRemoteVm(mm.mem, mm.argEnd - 1, 1);
    assert c == if mm.mem(mm.argEnd - 1).None? then [] else [mm.mem(mm.argEnd - 1).value];
    if |c| == 0 { return 0, pos0; }
    var n: nat;
    if c[0] == 0 {
      n := ReadStrings(mm, buf, count0, pos0);
    } else {
      n := ReadString(mm, buf, count0, pos0);
    }
    return n, pos0 + n;
  }

  /** The set of strings that fills the arguments. */
  method ReadStrings(mm: Mm, buf: array<byte>, count: nat, pos: nat) returns (rv: nat)
    requires WellFormed(mm) && Present(mm) && !OneString(mm) && count <= buf.Length
    modifies buf
    ensures rv == |Answer(mm, pos, count)| && buf[..] == Splice(old(buf[..]), 0, Answer(mm, pos, count))
  {
    var len1 := mm.argEnd - mm.argStart;
    if len1 <= pos {
      assert buf[..] == Splice(buf[..], 0, []);
      return 0;
    }
    AreaRun(mm, pos, Min(count, len1 - pos), false);
    var out;
    rv, out := CopyRun(mm.mem, mm.argStart + pos, len1 - pos, buf, 0, count, false);
  }

  /** The one string that may extend from the arguments into the environment. */
  method ReadString(mm: Mm, buf: array<byte>, count: nat, pos: nat) returns (rv: nat)
    requires WellFormed(mm) && Present(mm) && OneString(mm) && count <= buf.Length
    modifies buf
    ensures rv == |Answer(mm, pos, count)| && buf[..] == Splice(old(buf[..]), 0, Answer(mm, pos, count))
  {
    var len1, len2 := mm.argEnd - mm.argStart, mm.envEnd - mm.envStart;
    if len1 + len2 <= pos {
      assert buf[..] == Splice(buf[..], 0, []);
      return 0;
    }
    if len1 <= pos {
      var out;
      AreaRun(mm, pos, Min(count, len1 + len2 - pos), true);
      rv, out := CopyRun(mm.mem, mm.envStart + pos - len1, len1 + len2 - pos, buf, 0, count, true);
    } else {
      rv := ReadArgs(mm, buf, count, pos);
    }
  }

  /** From the arguments on. */
  method ReadArgs(mm: Mm, buf: array<byte>, count: nat, pos: nat) returns (rv: nat)
    requires WellFormed(mm) && pos < Len1(mm) && count <= buf.Length
    modifies buf
    ensures var x := Run(Areas(mm), pos, Min(count, Len1(mm) + Len2(mm) - pos), true);
      rv == |x| && buf[..] == Splice(old(buf[..]), 0, x)
  {
    ArgsThenEnv(mm, pos, count, Min(count, Len1(mm) - pos));
    var out;
    rv, out := ReadFront(mm, buf, count, pos);
    if out { return; }
    if rv == count { return; }
    rv := ReadOn(mm, buf, count, pos, rv, old(buf[..]));
  }

  /** The arguments from pos on. */
  method ReadFront(mm: Mm, buf: array<byte>, count: nat, pos: nat) returns (rv: nat, out: bool)
    requires WellFormed(mm) && pos < Len1(mm) && count <= buf.Length
    modifies buf
    ensures var n := Min(count, Len1(mm) - pos); var x := Run(Areas(mm), pos, n, true);
      rv == |x| && (out <==> rv < n) && buf[..] == Splice(old(buf[..]), 0, x)
  {
    var len1 := mm.argEnd - mm.argStart;
    AreaRun(mm, pos, Min(count, len1 - pos), true);
    rv, out := CopyRun(mm.mem, mm.argStart + pos, len1 - pos, buf, 0, count, true);
  }

  lemma {:induction false} ArgsThenEnv(mm: Mm, pos: nat, count: nat, n1: nat)
    requires WellFormed(mm) && pos < Len1(mm) && n1 == Min(count, Len1(mm) - pos)
    ensures var n := Min(count, Len1(mm) + Len2(mm) - pos);
      var first, all := Run(Areas(mm), pos, n1, true), Run(Areas(mm), pos, n, true);
      && (|first| < n1 || n1 == count ==> all == first)
      && (|first| == n1 < count ==> all == first + Run(Areas(mm), Len1(mm), Min(count - n1, Len2(mm)), true))
  {
    RunJoin(Areas(mm), pos, n1, Min(count, Len1(mm) + Len2(mm) - pos) - n1, true);
  }

  /** The part in the environment, behind n bytes of arguments. */
  method ReadOn(mm: Mm, buf: array<byte>, count: nat, ghost pos: nat, n: nat, ghost was: seq<byte>) returns (rv: nat)
    requires WellFormed(mm) && pos < Len1(mm) && n == Len1(mm) - pos < count <= buf.Length == |was|
    requires |Run(Areas(mm), pos, n, true)| == n && buf[..] == Splice(was, 0, Run(Areas(mm), pos, n, true))
    modifies buf
    ensures var x := Run(Areas(mm), pos, n, true) + Run(Areas(mm), Len1(mm), Min(count - n, Len2(mm)), true);
      rv == |x| && buf[..] == Splice(was, 0, x)
  {
    ghost var first := Run(Areas(mm), pos, n, true);
    ghost var x;
    rv, x := ReadEnv(mm, buf, count, n);
    SpliceMore(was, 0, first, x);
    rv := n + rv;
  }

  /** The environment from its start, to offset n of the buffer. */
  method ReadEnv(mm: Mm, buf: array<byte>, count: nat, n: nat) returns (rv: nat, ghost x: seq<byte>)
    requires WellFormed(mm) && n < count <= buf.Length
    modifies buf
    ensures x == Run(Areas(mm), Len1(mm), Min(count - n, Len2(mm)), true)
    ensures rv == |x| && buf[..] == Splice(old(buf[..]), n, x)
  {
    AreaRun(mm, Len1(mm), Min(count - n, Len2(mm)), true);
    x := Run(Areas(mm), Len1(mm), Min(count - n, Len2(mm)), true);
    var out;
    rv, out := CopyRun(mm.mem, mm.envStart, mm.envEnd - mm.envStart, buf, n, count - n, true);
  }

  // ---------- reading piece by piece ----------

  /** Up to the end of the line, a read delivers the slice of the line that it asks for. */
  lemma {:induction false} AnswerIsSlice(mm: Mm, pos: nat, count: nat)
    requires WellFormed(mm) && pos <= |Line(mm)|
    ensures Answer(mm, pos, count) == Slice(Line(mm), pos, count)
  {
    if Present(mm) && pos < Total(mm) {
      var n := Min(count, Total(mm) - pos);
      LineFrom(mm, pos);
      RunJoin(Areas(mm), pos, n, Total(mm) - pos - n, OneString(mm));
      RunPrefix(Line(mm), pos, count, Answer(mm, pos, count));
    }
  }

  lemma {:induction false} RunPrefix(line: seq<byte>, pos: nat, count: nat, x: seq<byte>)
    requires pos <= |line| && x <= line[pos..] && |x| <= count && (|x| < count ==> x == line[pos..])
    ensures x == Slice(line, pos, count)
  {
    if pos < |line| { assert line[pos..Min(pos + count, |line|)] == line[pos..][..|x|]; }
  }

  /** The rest of the line is the run from there on. */
  lemma {:induction false} LineFrom(mm: Mm, pos: nat)
    requires WellFormed(mm) && Present(mm) && pos <= |Line(mm)| && pos < Total(mm)
    ensures Line(mm)[pos..] == Run(Areas(mm), pos, Total(mm) - pos, OneString(mm))
  {
    var f, stop := Areas(mm), OneString(mm);
    assert Line(mm) == Run(f, 0, Total(mm), stop);
    RunJoin(f, 0, pos, Total(mm) - pos, stop);
    var first := Run(f, 0, pos, stop);
    assert |first| == pos;
    assert Line(mm) == first + Run(f, pos, Total(mm) - pos, stop);
  }

  /** Nothing is there to read: no environment address, no arguments, or an unreadable end of them. */
  predicate Absent(mm: Mm) {
    mm.envEnd == 0 || mm.argStart == mm.argEnd || (mm.argEnd > 0 && mm.mem(mm.argEnd - 1).None?)
  }

  /** Behind the end of the line, reads find nothing if and only if the byte there is no text. */
  lemma {:induction false} BehindTheLine(mm: Mm, pos: nat)
    requires WellFormed(mm)
    ensures (forall count: nat :: Answer(mm, pos, count) == Slice(Line(mm), pos, count))
            <==> Absent(mm) || pos <= |Line(mm)| || pos >= Total(mm) || At(mm, pos).None?
                 || (OneString(mm) && At(mm, pos) == Some(0))
  {
    if !Absent(mm) && pos <= |Line(mm)| {
      forall count: nat ensures Answer(mm, pos, count) == Slice(Line(mm), pos, count) { AnswerIsSlice(mm, pos, count); }
    } else if !Absent(mm) {
      assert forall count: nat :: Slice(Line(mm), pos, count) == [];
      if pos < Total(mm) && At(mm, pos).Some? && !(OneString(mm) && At(mm, pos) == Some(0)) {
        assert |Answer(mm, pos, 1)| == 1;
      }
    }
  }

  /**
   * A read behind the NUL that ends the line finds what the environment has there: wherever the two
   * areas are, with one byte of arguments and two of environment.
   */
  lemma {:induction false} BehindTheNul(mm: Mm, a: nat, e: nat, x: byte, y: byte)
    requires mm.argStart == a && mm.argEnd == a + 1 && mm.envStart == e && mm.envEnd == e + 2 && x != 0 && y != 0
    requires mm.mem(a) == Some(x) && mm.mem(e) == Some(0) && mm.mem(e + 1) == Some(y)
    ensures Line(mm) == [x] && Answer(mm, 2, 1) == [y]
  {
    var f := Areas(mm);
    assert Total(mm) == 3 && f(0) == Some(x) && f(1) == Some(0) && f(2) == Some(y);
    assert Run(f, 0, 3, true) == [x] + Run(f, 1, 2, true);
    assert Run(f, 2, 1, true) == [y] + Run(f, 3, 0, true);
  }

  /** The line may reach to the end of the environment: the arguments do not end with NUL. */
  predicate GoesOn(mm: Mm) {
    mm.argEnd > 0 && mm.mem(mm.argEnd - 1) != Some(0)
  }

  /** Byte q of the arguments, or of the environment behind them. */
  ghost predicate ByteIs(mm: Mm, q: nat, b: Option<byte>)
    requires WellFormed(mm)
  {
    var len1 := mm.argEnd - mm.argStart;
    b == if q < len1 then mm.mem(mm.argStart + q) else mm.mem(mm.envStart + (q - len1))
  }

  /** x is what is there from position pos on, as far as n bytes, the limit, a hole or a NUL to stop at. */
  ghost predicate Stretch(mm: Mm, x: seq<byte>, pos: nat, n: nat, limit: nat)
    requires WellFormed(mm)
  {
    && |x| <= n && (pos + |x| <= limit || x == [])
    && (forall i :: 0 <= i < |x| ==> ByteIs(mm, pos + i, Some(x[i])) && (GoesOn(mm) ==> x[i] != 0))
    && (|x| < n && pos + |x| < limit ==>
          ByteIs(mm, pos + |x|, None) || (GoesOn(mm) && ByteIs(mm, pos + |x|, Some(0))))
  }

  /**
   * What a read delivers, from the memory alone: nothing if nothing is there; else the bytes from
   * its position on, of the arguments if they end with NUL, else of arguments and environment up
   * to the first NUL.
   */
  lemma {:induction false} AnswerIs(mm: Mm, pos: nat, count: nat)
    requires WellFormed(mm)
    ensures Absent(mm) ==> Answer(mm, pos, count) == []
    ensures !Absent(mm) ==>
      var len1, len2 := mm.argEnd - mm.argStart, mm.envEnd - mm.envStart;
      Stretch(mm, Answer(mm, pos, count), pos, count, if GoesOn(mm) then len1 + len2 else len1)
  {
    if !Absent(mm) && pos < Total(mm) {
      StretchOf(mm, pos, count, Min(count, Total(mm) - pos), Total(mm), Answer(mm, pos, count));
    }
  }

  lemma {:induction false} StretchOf(mm: Mm, pos: nat, count: nat, n: nat, limit: nat, x: seq<byte>)
    requires WellFormed(mm) && pos < limit && n == Min(count, limit - pos) && x == Run(Areas(mm), pos, n, GoesOn(mm))
    ensures Stretch(mm, x, pos, count, limit)
  {
    forall i | 0 <= i < |x| ensures ByteIs(mm, pos + i, Some(x[i])) && (GoesOn(mm) ==> x[i] != 0) {
      RunIs(Areas(mm), pos, n, GoesOn(mm), i);
    }
    RunIs(Areas(mm), pos, n, GoesOn(mm), 0);
  }

  lemma {:induction false} RunIs(f: nat -> Option<byte>, p: nat, n: nat, stop: bool, i: nat)
    ensures var r := Run(f, p, n, stop);
      && (|r| < n ==> f(p + |r|).None? || (stop && f(p + |r|) == Some(0)))
      && (i < |r| ==> f(p + i) == Some(r[i]) && (stop ==> r[i] != 0))
    decreases n
  {
    if n > 0 { RunIs(f, p + 1, n - 1, stop, if i > 0 then i - 1 else 0); }
  }

  /** The line is all of the arguments, or both areas up to the first NUL; it ends early only at a hole. */
  lemma {:induction false} LineIs(mm: Mm)
    requires WellFormed(mm)
    ensures Absent(mm) ==> Line(mm) == []
    ensures !Absent(mm) ==>
      var len1, len2 := mm.argEnd - mm.argStart, mm.envEnd - mm.envStart;
      var limit := if GoesOn(mm) then len1 + len2 else len1;
      Stretch(mm, Line(mm), 0, limit, limit)
  {
    AnswerIs(mm, 0, Total(mm));
  }

  /** What sequential reads of the given sizes deliver, each at the position the last one left. */
  function Answers(mm: Mm, pos: nat, sizes: seq<nat>): seq<byte>
    requires WellFormed(mm)
    decreases |sizes|
  {
    if sizes == [] then []
    else Answer(mm, pos, sizes[0]) + Answers(mm, pos + |Answer(mm, pos, sizes[0])|, sizes[1..])
  }

  lemma {:induction false} NextAnswer(mm: Mm, pos: nat, sizes: seq<nat>, first: seq<byte>, next: nat, rest: seq<byte>)
    requires WellFormed(mm) && sizes != [] && first == Answer(mm, pos, sizes[0]) && next == pos + |first|
    requires rest == Answers(mm, next, sizes[1..])
    ensures Answers(mm, pos, sizes) == first + rest
  {
  }

  /** Sequential reads of any sizes concatenate to the front of the line. */
  lemma {:induction false} SequentialReads(mm: Mm, sizes: seq<nat>)
    requires WellFormed(mm)
    ensures Answers(mm, 0, sizes) == Slice(Line(mm), 0, Sum(sizes))
  {
    ReadsFrom(mm, Line(mm), 0, sizes);
  }

  lemma {:induction false} ReadsFrom(mm: Mm, line: seq<byte>, pos: nat, sizes: seq<nat>)
    requires WellFormed(mm) && line == Line(mm) && pos <= |line|
    ensures Answers(mm, pos, sizes) == Slice(line, pos, Sum(sizes))
    decreases |sizes|
  {
    if sizes != [] {
      var first := Answer(mm, pos, sizes[0]);
      AnswerIsSlice(mm, pos, sizes[0]);
      SliceBound(line, pos, sizes[0]);
      var next := pos + |first|;
      var rest := Answers(mm, next, sizes[1..]);
      ReadsFrom(mm, line, next, sizes[1..]);
      NextAnswer(mm, pos, sizes, first, next, rest);
      FirstRead(line, pos, sizes[0], Sum(sizes[1..]), first, next, rest);
    }
  }

  lemma {:induction false} SliceBound(line: seq<byte>, pos: nat, n: nat)
    requires pos <= |line|
    ensures pos + |Slice(line, pos, n)| <= |line|
  {
  }
}
