/** The logging library's output descriptor, which moves out of the way when the program closes it. */
module Logger {

  datatype Chunk = Log(line: string) | Data(bytes: string)

  /** The lines logged into a file, in order. */
  function Lines(contents: seq<Chunk>): seq<string> {
    if contents == [] then []
    else Lines(contents[..|contents| - 1]) +
         match contents[|contents| - 1] { case Log(line) => [line] case Data(_) => [] }
  }

  /** Descriptors refer to open file descriptions, which hold the contents written. */
  class Kernel {
    var fds: map<int, nat>
    var files: seq<seq<Chunk>>

    predicate Valid()
      reads this
    {
      forall fd | fd in fds :: fd >= 0 && fds[fd] < |files|
    }

    /** The lowest descriptor not in use. */
    method LowestFree() returns (fd: int)
      requires Valid()
      ensures fd >= 0 && fd !in fds && forall k | 0 <= k < fd :: k in fds
    {
      fd := 0;
      ghost var rest := fds.Keys;
      while fd in fds
        invariant fd >= 0 && forall k | 0 <= k < fd :: k in fds
        invariant rest == set k | k in fds && k >= fd
        decreases |rest|
      {
        ghost var was := rest;
        rest := rest - {fd};
        assert |rest| < |was|;
        fd := fd + 1;
      }
    }

    /** `ok` tells whether the path can be opened. */
    method Open(ok: bool) returns (fd: int)
      requires Valid()
      modifies this
      ensures Valid()
      ensures !ok ==> fd == -1 && fds == old(fds) && files == old(files)
      ensures ok ==> fd !in old(fds) && fd >= 0 && forall k | 0 <= k < fd :: k in old(fds)
      ensures ok ==> fds == old(fds)[fd := |old(files)|] && files == old(files) + [[]]
    {
      if !ok { return -1; }
      fd := LowestFree();
      fds, files := fds[fd := |files|], files + [[]];
    }

    method Dup(from: int) returns (fd: int)
      requires Valid()
      modifies this`fds
      ensures Valid()
      ensures from !in old(fds) ==> fd == -1 && fds == old(fds)
      ensures from in old(fds) ==>
        fd !in old(fds) && fd >= 0 && (forall k | 0 <= k < fd :: k in old(fds)) && fds == old(fds)[fd := old(fds)[from]]
    {
      if from !in fds { return -1; }
      fd := LowestFree();
      fds := fds[fd := fds[from]];
    }

    method Close(fd: int) returns (ret: int)
      requires Valid()
      modifies this`fds
      ensures Valid() && fds == old(fds) - {fd} && ret == if fd in old(fds) then 0 else -1
    {
      ret := if fd in fds then 0 else -1;
      fds := fds - {fd};
    }

    method Write(fd: int, chunk: Chunk)
      requires Valid()
      modifies this`files
      ensures Valid()
      ensures files == if fd in fds then old(files)[fds[fd] := old(files)[fds[fd]] + [chunk]] else old(files)
    {
      if fd in fds { files := files[fds[fd] := files[fds[fd]] + [chunk]]; }
    }
  }

  /** A call of the traced program; `line` is the text the hook logs for it. */
  datatype Call =
    | Opens(ok: bool, line: string)
    | Closes(fd: int, line: string)
    | FCloses(fd: int, line: string)
    | Writes(fd: int, bytes: string, line: string)
    | Other(line: string)

  lemma LinesOne(contents: seq<Chunk>, chunk: Chunk)
    ensures Lines(contents + [chunk]) == Lines(contents) + if chunk.Log? then [chunk.line] else []
  {
  }

  /** The lines logged into file `f`; none if there is no such file yet. */
  function LinesAt(files: seq<seq<Chunk>>, f: nat): seq<string> {
    if f < |files| then Lines(files[f]) else []
  }

  /** Between two states of the files, exactly `lines` were logged, all into file `h`. */
  ghost predicate Appended(files: seq<seq<Chunk>>, now: seq<seq<Chunk>>, h: nat, lines: seq<string>) {
    forall f: nat :: LinesAt(now, f) == LinesAt(files, f) + if f == h then lines else []
  }

  function WithChunk(files: seq<seq<Chunk>>, f: nat, chunk: Chunk): seq<seq<Chunk>>
    requires f < |files|
  {
    files[f := files[f] + [chunk]]
  }

  /** The files after what the program itself asked for. */
  function ProgramPart(files: seq<seq<Chunk>>, fds: map<int, nat>, call: Call): seq<seq<Chunk>> {
    match call
    case Opens(ok, _) => if ok then files + [[]] else files
    case Writes(fd, bytes, _) =>
      if fd in fds && fds[fd] < |files| then WithChunk(files, fds[fd], Data(bytes)) else files
    case _ => files
  }

  lemma AppendedChunk(files: seq<seq<Chunk>>, w: nat, chunk: Chunk, h: nat)
    requires w < |files| && (chunk.Log? ==> w == h)
    ensures Appended(files, WithChunk(files, w, chunk), h, if chunk.Log? then [chunk.line] else [])
  {
    LinesOne(files[w], chunk);
  }

  lemma AppendedNone(files: seq<seq<Chunk>>, h: nat)
    ensures Appended(files, files + [[]], h, []) && Appended(files, files, h, [])
  {
  }

  /** Whatever the program asked for, one call adds one line, to the log's file. */
  lemma CallAppends(files: seq<seq<Chunk>>, fds: map<int, nat>, call: Call, h: nat)
    requires h < |files|
    ensures h < |ProgramPart(files, fds, call)|
    ensures Appended(files, WithChunk(ProgramPart(files, fds, call), h, Log(call.line)), h, [call.line])
  {
    var middle := ProgramPart(files, fds, call);
    AppendedNone(files, h);
    if call.Writes? && call.fd in fds && fds[call.fd] < |files| {
      AppendedChunk(files, fds[call.fd], Data(call.bytes), h);
    }
    AppendedChunk(middle, h, Log(call.line), h);
    AppendedThen(files, middle, WithChunk(middle, h, Log(call.line)), h, [], [call.line]);
    assert [] + [call.line] == [call.line];
  }

  /** Without a log, the program's own part appends no line. */
  lemma NoneAppended(files: seq<seq<Chunk>>, fds: map<int, nat>, call: Call, h: nat)
    ensures Appended(files, ProgramPart(files, fds, call), h, [])
  {
    AppendedNone(files, h);
    if call.Writes? && call.fd in fds && fds[call.fd] < |files| {
      AppendedChunk(files, fds[call.fd], Data(call.bytes), h);
    }
  }

  lemma AppendedThen(a: seq<seq<Chunk>>, b: seq<seq<Chunk>>, c: seq<seq<Chunk>>, h: nat,
                     some: seq<string>, more: seq<string>)
    requires Appended(a, b, h, some) && Appended(b, c, h, more)
    ensures Appended(a, c, h, some + more)
  {
  }

  lemma AppendedNothing(a: seq<seq<Chunk>>, b: seq<seq<Chunk>>, h: nat, k: nat)
    requires Appended(a, b, h, [])
    ensures Appended(a, b, k, [])
  {
  }

  // ---------- What the files hold ----------

  /** The contents of file `f`; empty if there is no such file yet. */
  function ContentsAt(files: seq<seq<Chunk>>, f: nat): seq<Chunk> {
    if f < |files| then files[f] else []
  }

  /** What one call puts into file `f` when the log is in file `log` (negative: nowhere). */
  function Written(call: Call, fds: map<int, nat>, log: int, f: nat): seq<Chunk> {
    (if call.Writes? && call.fd in fds && fds[call.fd] == f then [Data(call.bytes)] else [])
    + if f == log then [Log(call.line)] else []
  }

  /** Between two states of the files, every file got what the call puts into it, and no more. */
  ghost predicate Grown(files: seq<seq<Chunk>>, now: seq<seq<Chunk>>, call: Call, fds: map<int, nat>, log: int) {
    forall f: nat :: ContentsAt(now, f) == ContentsAt(files, f) + Written(call, fds, log, f)
  }

  lemma GrownExactly(files: seq<seq<Chunk>>, now: seq<seq<Chunk>>, call: Call, fds: map<int, nat>, log: int)
    requires |files| <= |now| <= |files| + 1 && (|now| > |files| ==> now[|files|] == [])
    requires log < |files| && (call.Writes? && call.fd in fds ==> fds[call.fd] < |files|)
    ensures Grown(files, now, call, fds, log) <==> forall f | 0 <= f < |files| ::
      now[f] == files[f] + (
        (if call.Writes? && call.fd in fds && fds[call.fd] == f then [Data(call.bytes)] else [])
        + (if f == log then [Log(call.line)] else []))
  {
    forall f | 0 <= f < |files|
      ensures ContentsAt(now, f) == now[f] && ContentsAt(files, f) == files[f]
    {
    }
    forall f: nat | f >= |files| ensures ContentsAt(now, f) == ContentsAt(files, f) + Written(call, fds, log, f) {
    }
  }

  /** A file that is opened is empty at first. */
  lemma GrownFrom(start: seq<seq<Chunk>>, files: seq<seq<Chunk>>, now: seq<seq<Chunk>>, call: Call,
                  fds: map<int, nat>, table: map<int, nat>, log: int)
    requires (files == start || files == start + [[]]) && Grown(files, now, call, fds, log)
    requires call.Writes? ==> table == fds
    ensures Grown(start, now, call, table, log)
  {
    assert forall f: nat :: ContentsAt(files, f) == ContentsAt(start, f);
    assert forall f: nat :: Written(call, fds, log, f) == Written(call, table, log, f);
  }

  lemma GrownThere(files: seq<seq<Chunk>>, now: seq<seq<Chunk>>, call: Call, fds: map<int, nat>, log: int)
    requires |files| <= |now| && Grown(files, now, call, fds, log)
    ensures forall f | 0 <= f < |files| ::
      now[f] == files[f] + (
        (if call.Writes? && call.fd in fds && fds[call.fd] == f then [Data(call.bytes)] else [])
        + (if f == log then [Log(call.line)] else []))
  {
    forall f | 0 <= f < |files|
      ensures now[f] == files[f] + (
        (if call.Writes? && call.fd in fds && fds[call.fd] == f then [Data(call.bytes)] else [])
        + (if f == log then [Log(call.line)] else []))
    {
      assert ContentsAt(now, f) == ContentsAt(files, f) + Written(call, fds, log, f);
    }
  }

  /** What a run of calls puts there; `tables[i]` are the descriptors when call `i` does its work. */
  function Journal(calls: seq<Call>, tables: seq<map<int, nat>>, log: int, f: nat): seq<Chunk>
    requires |tables| == |calls|
    decreases |calls|
  {
    if calls == [] then []
    else
      var n := |calls| - 1;
      Journal(calls[..n], tables[..n], log, f) + Written(calls[n], tables[n], log, f)
  }

  /** Between two states of the files, every file got what the calls put into it, and no more. */
  ghost predicate Filled(files: seq<seq<Chunk>>, now: seq<seq<Chunk>>, calls: seq<Call>, tables: seq<map<int, nat>>,
                        log: int)
    requires |tables| == |calls|
  {
    forall f: nat :: ContentsAt(now, f) == ContentsAt(files, f) + Journal(calls, tables, log, f)
  }

  predicate ClosesFd(call: Call, fd: int) {
    (call.Closes? || call.FCloses?) && call.fd == fd
  }

  /** A call leaves every descriptor but the one it closes on its file, and new descriptors are on
      the log's file or on one opened since there were `n` files. */
  ghost predicate KeepsFds(before: map<int, nat>, after: map<int, nat>, call: Call, log: int, n: nat) {
    && (forall fd | fd in before && !ClosesFd(call, fd) :: fd in after && after[fd] == before[fd])
    && (forall fd | ClosesFd(call, fd) :: fd !in after)
    && forall fd | fd in after :: (fd in before && after[fd] == before[fd]) || after[fd] == log || after[fd] >= n
  }

  /** The descriptors before call `i`. */
  function Before(start: map<int, nat>, tables: seq<map<int, nat>>, i: nat): map<int, nat>
    requires i <= |tables|
  {
    if i == 0 then start else tables[i - 1]
  }

  ghost predicate Evolves(start: map<int, nat>, tables: seq<map<int, nat>>, calls: seq<Call>, log: int, n: nat)
    requires |tables| == |calls|
  {
    forall i | 0 <= i < |calls| :: KeepsFds(Before(start, tables, i), tables[i], calls[i], log, n)
  }

  /** The program's bytes in a file, in order. */
  function Datas(contents: seq<Chunk>): seq<string> {
    if contents == [] then []
    else Datas(contents[..|contents| - 1]) +
         match contents[|contents| - 1] { case Log(_) => [] case Data(bytes) => [bytes] }
  }

  lemma DatasOne(contents: seq<Chunk>, chunk: Chunk)
    ensures Datas(contents + [chunk]) == Datas(contents) + if chunk.Data? then [chunk.bytes] else []
  {
  }

  /** What the program writes to descriptor `fd`. */
  function WrittenTo(calls: seq<Call>, fd: int): seq<string> {
    if calls == [] then []
    else
      var n := |calls| - 1;
      WrittenTo(calls[..n], fd) + if calls[n].Writes? && calls[n].fd == fd then [calls[n].bytes] else []
  }

  lemma OneStays(before: map<int, nat>, after: map<int, nat>, call: Call, log: int, n: nat, fd: int, f: nat)
    requires KeepsFds(before, after, call, log, n) && !ClosesFd(call, fd)
    requires fd in before && before[fd] == f && f != log && f < n
    requires forall k | k in before && k != fd :: before[k] != f
    ensures fd in after && after[fd] == f && forall k | k in after && k != fd :: after[k] != f
  {
  }

  /** A descriptor no call closes stays on its file, and a file that is not the log's gets no
      other descriptor. */
  lemma {:induction false} StaysOpen(start: map<int, nat>, tables: seq<map<int, nat>>, calls: seq<Call>,
                                     log: int, n: nat, fd: int, i: nat)
    requires |tables| == |calls| && Evolves(start, tables, calls, log, n) && i <= |calls|
    requires fd in start && start[fd] != log && start[fd] < n
    requires forall k | k in start && k != fd :: start[k] != start[fd]
    requires forall k | 0 <= k < i :: !ClosesFd(calls[k], fd)
    ensures var now := Before(start, tables, i);
      fd in now && now[fd] == start[fd] && forall k | k in now && k != fd :: now[k] != start[fd]
    decreases i
  {
    if i > 0 {
      StaysOpen(start, tables, calls, log, n, fd, i - 1);
      assert KeepsFds(Before(start, tables, i - 1), tables[i - 1], calls[i - 1], log, n);
      hide KeepsFds, Evolves;
      OneStays(Before(start, tables, i - 1), tables[i - 1], calls[i - 1], log, n, fd, start[fd]);
    }
  }

  /** A file the program has one descriptor on, which it does not close, and which is not the
      log's, receives exactly what the program writes to that descriptor, in order. */
  lemma {:induction false} FileReceives(start: map<int, nat>, tables: seq<map<int, nat>>, calls: seq<Call>,
                                        log: int, n: nat, fd: int)
    requires |tables| == |calls| && Evolves(start, tables, calls, log, n)
    requires fd in start && start[fd] != log && start[fd] < n
    requires forall k | k in start && k != fd :: start[k] != start[fd]
    requires forall call | call in calls :: !ClosesFd(call, fd)
    ensures Datas(Journal(calls, tables, log, start[fd])) == WrittenTo(calls, fd)
    decreases |calls|
  {
    if calls != [] {
      var m, f := |calls| - 1, start[fd];
      assert calls[m] in calls;
      forall i | 0 <= i < m ensures KeepsFds(Before(start, tables[..m], i), tables[..m][i], calls[..m][i], log, n) {
        assert KeepsFds(Before(start, tables, i), tables[i], calls[i], log, n);
      }
      FileReceives(start, tables[..m], calls[..m], log, n, fd);
      StaysOpen(start, tables, calls, log, n, fd, m + 1);
      var before := Journal(calls[..m], tables[..m], log, f);
      if calls[m].Writes? && calls[m].fd == fd {
        assert Written(calls[m], tables[m], log, f) == [Data(calls[m].bytes)];
        DatasOne(before, Data(calls[m].bytes));
      } else {
        assert Written(calls[m], tables[m], log, f) == [];
        assert before + [] == before;
      }
    }
  }

  lemma {:induction false} DatasJoin(a: seq<Chunk>, b: seq<Chunk>)
    ensures Datas(a + b) == Datas(a) + Datas(b)
    decreases |b|
  {
    if b == [] {
      assert a + b == a;
    } else {
      var n := |b| - 1;
      DatasJoin(a, b[..n]);
      assert a + b == (a + b[..n]) + [b[n]] && b == b[..n] + [b[n]];
      DatasOne(a + b[..n], b[n]);
      DatasOne(b[..n], b[n]);
    }
  }

  /** So in the file itself: the bytes that were there, and behind them what the program wrote. */
  lemma FileDelivers(files: seq<seq<Chunk>>, now: seq<seq<Chunk>>, start: map<int, nat>, tables: seq<map<int, nat>>,
                     calls: seq<Call>, log: int, fd: int)
    requires |tables| == |calls| && Evolves(start, tables, calls, log, |files|)
    requires Filled(files, now, calls, tables, log)
    requires fd in start && start[fd] != log && start[fd] < |files|
    requires forall k | k in start && k != fd :: start[k] != start[fd]
    requires forall call | call in calls :: !ClosesFd(call, fd)
    ensures Datas(ContentsAt(now, start[fd])) == Datas(files[start[fd]]) + WrittenTo(calls, fd)
  {
    hide Evolves;
    FileReceives(start, tables, calls, log, |files|, fd);
    DatasJoin(files[start[fd]], Journal(calls, tables, log, start[fd]));
  }

  function CallLines(calls: seq<Call>): seq<string> {
    seq(|calls|, i requires 0 <= i < |calls| => calls[i].line)
  }

  class Logger {
    const kernel: Kernel
    const toStderr: bool
    const logOpens: bool
    var fdFlag: bool
    var stderrFd: int
    ghost var home: nat

    /** The log goes to standard error, or to a named file that does or does not open. */
    constructor (kernel: Kernel, toStderr: bool, logOpens: bool)
      ensures this.kernel == kernel && this.toStderr == toStderr && this.logOpens == logOpens
      ensures !fdFlag && stderrFd == 2
    {
      this.kernel, this.toStderr, this.logOpens := kernel, toStderr, logOpens;
      fdFlag, stderrFd := false, 2;
    }

    predicate Lost() {
      !toStderr && !logOpens
    }

    /** Once set up, the log descriptor is open on its first file, `home`, or there is no log. */
    ghost predicate Valid()
      reads this, kernel
    {
      && kernel.Valid()
      && (!fdFlag ==> stderrFd == 2 && (toStderr ==> 2 in kernel.fds))
      && (fdFlag ==> if Lost() then stderrFd == -1
                     else stderrFd in kernel.fds && kernel.fds[stderrFd] == home && home < |kernel.files|)
    }

    /** The log's file, or -1 if there is no log. */
    ghost function LogFile(): int
      reads this
    {
      if Lost() then -1 else home
    }

    /** The descriptors other than the log's own. */
    ghost function Others(): map<int, nat>
      reads this, kernel
    {
      if fdFlag || toStderr then kernel.fds - {stderrFd} else kernel.fds
    }

    /** Some files with a line logged. */
    ghost function WithLine(files: seq<seq<Chunk>>, line: string): seq<seq<Chunk>>
      requires !Lost() ==> home < |files|
      reads this
    {
      if Lost() then files else WithChunk(files, home, Log(line))
    }

    /** The lines that reach the log's file. */
    function Kept(lines: seq<string>): seq<string> {
      if Lost() then [] else lines
    }

    /** Lines 37-50. */
    method InitFd()
      requires Valid() && !fdFlag
      modifies this, kernel
      ensures Valid() && fdFlag && Others() == old(Others())
      ensures Appended(old(kernel.files), kernel.files, home, [])
      ensures !toStderr && logOpens ==> kernel.files == old(kernel.files) + [[]] && home == |old(kernel.files)|
      ensures toStderr || !logOpens ==> kernel.fds == old(kernel.fds) && kernel.files == old(kernel.files)
      ensures toStderr ==> home == old(kernel.fds)[2]
      ensures forall fd | fd in old(kernel.fds) :: fd in kernel.fds && kernel.fds[fd] == old(kernel.fds)[fd]
      ensures forall fd | fd in kernel.fds && fd !in old(kernel.fds) :: kernel.fds[fd] == home && !Lost()
    {
      if !toStderr { stderrFd := kernel.Open(logOpens); }
      fdFlag := true;
      if !Lost() { home := kernel.fds[stderrFd]; }
      AppendedNone(old(kernel.files), home);
    }

    method Print(line: string)
      requires Valid() && fdFlag
      modifies kernel`files
      ensures Valid() && kernel.files == WithLine(old(kernel.files), line)
    {
      kernel.Write(stderrFd, Log(line));
    }

    /** Lines 132-159 and 215-240: the descriptor asked for is closed, and only the log's own
        descriptor may appear, on the file it had before. */
    method Close(fd: int, line: string) returns (ret: int)
      requires Valid() && fdFlag
      modifies this`stderrFd, kernel
      ensures Valid() && fd !in kernel.fds && (stderrFd == fd ==> Lost() && fd == -1)
      ensures ret == if fd in old(kernel.fds) then 0 else -1
      ensures Others() == old(Others()) - {fd}
      ensures fd != old(stderrFd) ==> stderrFd == old(stderrFd)
      ensures fd == old(stderrFd) && !Lost() ==> stderrFd !in old(kernel.fds)
      ensures kernel.files == WithLine(old(kernel.files), line)
      ensures KeepsFds(old(kernel.fds), kernel.fds, Closes(fd, line), LogFile(), |old(kernel.files)|)
    {
      if fd == stderrFd { stderrFd := kernel.Dup(stderrFd); }
      ret := kernel.Close(fd);
      Print(line);
    }

    /** What the program asked for, and the hook's line, once the log is set up. */
    method Perform(call: Call) returns (ret: int)
      requires Valid() && fdFlag
      modifies this`stderrFd, kernel
      ensures Valid()
      ensures !Lost() ==> home < |ProgramPart(old(kernel.files), old(kernel.fds), call)|
      ensures kernel.files == WithLine(ProgramPart(old(kernel.files), old(kernel.fds), call), call.line)
      ensures match call
        case Opens(ok, _) =>
          if ok then
            && ret >= 0 && ret !in old(kernel.fds) && (forall k | 0 <= k < ret :: k in old(kernel.fds))
            && Others() == old(Others())[ret := |old(kernel.files)|]
          else ret == -1 && Others() == old(Others())
        case Closes(fd, _) =>
          ret == (if fd in old(kernel.fds) then 0 else -1) && fd !in kernel.fds && Others() == old(Others()) - {fd}
        case FCloses(fd, _) =>
          ret == (if fd in old(kernel.fds) then 0 else -1) && fd !in kernel.fds && Others() == old(Others()) - {fd}
        case _ => Others() == old(Others())
      ensures |kernel.files| == |old(kernel.files)| + if call.Opens? && call.ok then 1 else 0
      ensures forall f | 0 <= f < |old(kernel.files)| ::
        kernel.files[f] == old(kernel.files)[f] + (
          (if call.Writes? && call.fd in old(kernel.fds) && old(kernel.fds)[call.fd] == f
           then [Data(call.bytes)] else [])
          + (if f == home && !Lost() then [Log(call.line)] else []))
      ensures KeepsFds(old(kernel.fds), kernel.fds, call, LogFile(), |old(kernel.files)|)
      ensures call.Opens? && call.ok ==> kernel.files[|old(kernel.files)|] == []
      ensures call.Writes? ==> kernel.fds == old(kernel.fds)
    {
      ret := 0;
      match call {
        case Closes(fd, line) => ret := Close(fd, line);
        case FCloses(fd, line) =>
          ret := Close(fd, line);
          assert forall k :: ClosesFd(call, k) == ClosesFd(Closes(fd, line), k);
        case Opens(ok, line) =>
          ret := kernel.Open(ok);
          Print(line);
        case Writes(fd, bytes, line) =>
          kernel.Write(fd, Data(bytes));
          Print(line);
        case Other(line) => Print(line);
      }
    }

    /** The same, in terms of what every file gets. */
    method Logged(call: Call) returns (ret: int)
      requires Valid() && fdFlag
      modifies this`stderrFd, kernel
      ensures Valid() && |kernel.files| >= |old(kernel.files)| && (call.Writes? ==> kernel.fds == old(kernel.fds))
      ensures Appended(old(kernel.files), kernel.files, home, Kept([call.line]))
      ensures Grown(old(kernel.files), kernel.files, call, old(kernel.fds), LogFile())
      ensures KeepsFds(old(kernel.fds), kernel.fds, call, LogFile(), |old(kernel.files)|)
      ensures match call
        case Opens(ok, _) =>
          if ok then
            ret !in old(Others()) && |kernel.files| > 0 && Others() == old(Others())[ret := |kernel.files| - 1]
          else ret == -1 && Others() == old(Others())
        case Closes(fd, _) =>
          ret == (if fd in old(kernel.fds) then 0 else -1) && fd !in kernel.fds && Others() == old(Others()) - {fd}
        case FCloses(fd, _) =>
          ret == (if fd in old(kernel.fds) then 0 else -1) && fd !in kernel.fds && Others() == old(Others()) - {fd}
        case _ => Others() == old(Others())
    {
      hide Appended, Grown, KeepsFds;
      ghost var files, fds := kernel.files, kernel.fds;
      if Lost() { NoneAppended(files, fds, call, home); } else { CallAppends(files, fds, call, home); }
      ret := Perform(call);
      GrownExactly(files, kernel.files, call, fds, LogFile());
    }

    /** Any hook: set up if need be, do what the program asked, and log one line. */
    method Hook(call: Call) returns (ret: int)
      requires Valid()
      modifies this, kernel
      ensures Valid() && fdFlag && (old(fdFlag) ==> home == old(home))
      ensures Appended(old(kernel.files), kernel.files, home, Kept([call.line]))
      ensures match call
        case Opens(ok, _) =>
          if ok then ret !in old(Others()) && |kernel.files| > 0 && Others() == old(Others())[ret := |kernel.files| - 1]
          else ret == -1 && Others() == old(Others())
        case Closes(fd, _) =>
          (fd in old(kernel.fds) ==> ret == 0) && fd !in kernel.fds && Others() == old(Others()) - {fd}
        case FCloses(fd, _) =>
          (fd in old(kernel.fds) ==> ret == 0) && fd !in kernel.fds && Others() == old(Others()) - {fd}
        case _ => Others() == old(Others())
      ensures |kernel.files| >= |old(kernel.files)|
      ensures forall f | 0 <= f < |old(kernel.files)| ::
        kernel.files[f] == old(kernel.files)[f] + (
          (if call.Writes? && call.fd in kernel.fds && kernel.fds[call.fd] == f
           then [Data(call.bytes)] else [])
          + (if f == home && !Lost() then [Log(call.line)] else []))
      ensures Grown(old(kernel.files), kernel.files, call, kernel.fds, LogFile())
      ensures KeepsFds(old(kernel.fds), kernel.fds, call, LogFile(), |old(kernel.files)|)
    {
      hide Appended, Grown, KeepsFds;
      ghost var start, startFds := kernel.files, kernel.fds;
      if !fdFlag { InitFd(); } else { AppendedNone(start, home); }
      ghost var files, fds := kernel.files, kernel.fds;
      ret := Logged(call);
      AppendedThen(start, files, kernel.files, home, [], Kept([call.line]));
      assert [] + Kept([call.line]) == Kept([call.line]);
      GrownFrom(start, files, kernel.files, call, fds, kernel.fds, LogFile());
      GrownThere(start, kernel.files, call, kernel.fds, LogFile());
      KeepsFrom(startFds, fds, kernel.fds, call, LogFile(), |files|, |start|);
    }

    /** Over every run of calls, whatever the program closes, the log stays open on one file, which
        receives every line in order, and no line goes anywhere else; exactly if the log could
        not be opened, no line goes anywhere at all.  Every file receives what the program wrote to
        its descriptors, in order, and nothing else; `tables` are the descriptors after each call. */
    method Run(calls: seq<Call>) returns (ghost tables: seq<map<int, nat>>)
      requires Valid()
      modifies this, kernel
      ensures Valid() && (old(fdFlag) ==> home == old(home)) && (calls != [] ==> fdFlag)
      ensures Appended(old(kernel.files), kernel.files, home, Kept(CallLines(calls)))
      ensures |tables| == |calls| && (calls != [] ==> tables[|calls| - 1] == kernel.fds)
      ensures Evolves(old(kernel.fds), tables, calls, LogFile(), |old(kernel.files)|)
      ensures Filled(old(kernel.files), kernel.files, calls, tables, LogFile())
    {
      hide Appended, CallLines, KeepsFds, Grown, Filled, Evolves;
      var i := 0;
      tables := [];
      NothingYet(kernel.files, kernel.fds, calls, LogFile(), |kernel.files|);
      AppendedNone(kernel.files, home);
      NoLines(calls);
      while i < |calls|
        invariant 0 <= i <= |calls| && Valid() && (old(fdFlag) ==> fdFlag && home == old(home)) && (i > 0 ==> fdFlag)
        invariant Appended(old(kernel.files), kernel.files, home, Kept(CallLines(calls[..i])))
        invariant |tables| == i && Before(old(kernel.fds), tables, i) == kernel.fds
        invariant |kernel.files| >= |old(kernel.files)| && (i == 0 ==> kernel.files == old(kernel.files))
        invariant Evolves(old(kernel.fds), tables, calls[..i], LogFile(), |old(kernel.files)|)
        invariant Filled(old(kernel.files), kernel.files, calls[..i], tables, LogFile())
      {
        ghost var files, was, fds := kernel.files, home, kernel.fds;
        var _ := Hook(calls[i]);
        if i == 0 { NothingYet(files, fds, calls, LogFile(), |files|); }
        if i == 0 { AppendedNothing(old(kernel.files), files, was, home); }
        AppendedThen(old(kernel.files), files, kernel.files, home, Kept(CallLines(calls[..i])), Kept([calls[i].line]));
        NextLine(calls, i);
        assert Kept(CallLines(calls[..i])) + Kept([calls[i].line]) == Kept(CallLines(calls[..i + 1]));
        NextTable(old(kernel.fds), tables, calls, i, fds, kernel.fds, LogFile(), |files|, |old(kernel.files)|);
        NextFilled(old(kernel.files), files, kernel.files, calls, tables, i, kernel.fds, LogFile());
        tables := tables + [kernel.fds];
        i := i + 1;
      }
      assert calls[..i] == calls;
    }
  }

  lemma KeepsFrom(start: map<int, nat>, before: map<int, nat>, after: map<int, nat>, call: Call, log: int,
                  m: nat, n: nat)
    requires KeepsFds(before, after, call, log, m) && n <= m
    requires forall fd | fd in start :: fd in before && before[fd] == start[fd]
    requires forall fd | fd in before && fd !in start :: before[fd] == log
    ensures KeepsFds(start, after, call, log, n)
  {
  }

  lemma KeepsFewer(before: map<int, nat>, after: map<int, nat>, call: Call, log: int, m: nat, n: nat)
    requires KeepsFds(before, after, call, log, m) && n <= m
    ensures KeepsFds(before, after, call, log, n)
  {
  }

  /** One call more. */
  lemma NextTable(start: map<int, nat>, tables: seq<map<int, nat>>, calls: seq<Call>, i: nat,
                  before: map<int, nat>, after: map<int, nat>, log: int, m: nat, n: nat)
    requires i < |calls| && |tables| == i && Before(start, tables, i) == before
    requires Evolves(start, tables, calls[..i], log, n) && KeepsFds(before, after, calls[i], log, m) && n <= m
    ensures Evolves(start, tables + [after], calls[..i + 1], log, n)
  {
    KeepsFewer(before, after, calls[i], log, m, n);
    hide KeepsFds;
    var now, done := tables + [after], calls[..i + 1];
    forall k | 0 <= k < i + 1 ensures KeepsFds(Before(start, now, k), now[k], done[k], log, n) {
      if k < i { assert KeepsFds(Before(start, tables, k), tables[k], calls[..i][k], log, n); }
    }
  }

  lemma NextFilled(start: seq<seq<Chunk>>, files: seq<seq<Chunk>>, now: seq<seq<Chunk>>, calls: seq<Call>,
                  tables: seq<map<int, nat>>, i: nat, fds: map<int, nat>, log: int)
    requires i < |calls| && |tables| == i
    requires Filled(start, files, calls[..i], tables, log) && Grown(files, now, calls[i], fds, log)
    ensures Filled(start, now, calls[..i + 1], tables + [fds], log)
  {
    hide Written, ContentsAt;
    var all, done := tables + [fds], calls[..i + 1];
    assert all[..i] == tables && done[..i] == calls[..i];
    forall f: nat ensures ContentsAt(now, f) == ContentsAt(start, f) + Journal(done, all, log, f) {
      var part, was := Written(calls[i], fds, log, f), Journal(calls[..i], tables, log, f);
      assert ContentsAt(now, f) == ContentsAt(files, f) + part;
      assert (ContentsAt(start, f) + was) + part == ContentsAt(start, f) + (was + part);
    }
  }

  lemma NothingYet(files: seq<seq<Chunk>>, fds: map<int, nat>, calls: seq<Call>, log: int, n: nat)
    ensures Evolves(fds, [], calls[..0], log, n) && Filled(files, files, calls[..0], [], log)
  {
  }

  lemma NoLines(calls: seq<Call>)
    ensures CallLines(calls[..0]) == []
  {
  }

  lemma NextLine(calls: seq<Call>, i: nat)
    requires i < |calls|
    ensures CallLines(calls[..i + 1]) == CallLines(calls[..i]) + [calls[i].line]
  {
  }
}
