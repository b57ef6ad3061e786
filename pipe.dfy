/** CAP_Pipe: a named FIFO that is opened for each refill of its read buffer and
    for each write, and the framing of messages as command line, decimal length
    line and body.

    The operating system is not modelled: every system call's answer is a
    parameter, and the pipe records the calls it issues in `calls`. */
module Pipe {

  import opened Wrappers
  import opened Defs
  import opened Strings
  import opened Numerals
  import opened Buffer

  /** The answers of the three system calls behind one refill of the read
      buffer: open(2), read(2) and close(2). */
  datatype Refill = Refill(open: OpenAnswer, read: ReadAnswer, closeOk: bool)

  /** The answers of the system calls behind one write. */
  datatype WriteEnv = WriteEnv(open: OpenAnswer, writeOk: bool, closeOk: bool)

  /** No read(2) delivers more than the buffer it fills. */
  predicate Fits(answers: seq<Refill>) {
    forall i :: 0 <= i < |answers| ==>
      (answers[i].read.ReadGot? ==> |answers[i].read.bytes| <= PIPE_BUFFER_SIZE)
  }

  lemma FitsSuffix(answers: seq<Refill>, n: nat)
    requires Fits(answers) && n <= |answers|
    ensures Fits(answers[n..])
  {
  }

  /** What a read depends on and changes: the characters pending in the read
      buffer, the descriptor, and the system calls issued so far. */
  datatype Chan = Chan(window: seq<char>, fd: int, calls: seq<SysCall>)

  /** How a read ends: the string it assigns, the exception it throws,
      undefined behaviour (a write past its scratch buffer, an unterminated
      scratch buffer handed to string::assign, or a signed overflow), or
      waiting for a refill beyond the answers given (open(2) and read(2) on a
      FIFO block until a writer comes). */
  datatype ReadOutcome = Done(text: string) | Failed(err: PipeError) | Undefined | Blocked

  // ---------------------------------------------------------------------------
  // The system-call steps as functions of the channel

  function OpenStep(c: Chan, path: string, mode: PipeMode, ans: OpenAnswer): (Outcome<PipeError>, Chan) {
    if c.fd != 0 then (Fail(IsOpen), c)
    else
      var calls := c.calls + [SysOpen(path, FlagsFor(mode))];
      match ans
      case Opened(fd) => (Pass, c.(fd := fd, calls := calls))
      case OpenRefused(e) => (Fail(if e == ENXIO then IsClosed else OpenFail), c.(fd := 0, calls := calls))
  }

  function CloseStep(c: Chan, ok: bool): Chan {
    if c.fd == 0 then c
    else c.(fd := if ok then 0 else c.fd, calls := c.calls + [SysClose(c.fd)])
  }

  /** One refill of an empty read buffer: open, read, close. Any exception ends
      the refill at once, so a failed read(2) leaves the descriptor open. */
  function RefillStep(c: Chan, path: string, mode: PipeMode, r: Refill): (res: (bool, Chan))
    ensures res.0 ==> r.read.ReadGot? && res.1.window == r.read.bytes
    ensures !res.0 ==> res.1.window == c.window
  {
    var (o, c1) := OpenStep(c, path, mode, r.open);
    if o.Fail? || c1.fd == 0 then (false, c1)
    else
      match r.read
      case ReadError => (false, c1)
      case ReadGot(bytes) => (true, CloseStep(c1.(window := bytes), r.closeOk))
  }

  /** write(): open, one write(2) of the whole string, close. A failed write(2)
      throws before the close. */
  function WriteStep(c: Chan, path: string, mode: PipeMode, src: string, env: WriteEnv): (Outcome<PipeError>, Chan) {
    var (o, c1) := OpenStep(c, path, mode, env.open);
    if o.Fail? then (o, c1)
    else
      var c2 := c1.(calls := c1.calls + [SysWrite(c1.fd, src)]);
      if !env.writeOk then (Fail(WriteFail), c2) else (Pass, CloseStep(c2, env.closeOk))
  }

  // ---------------------------------------------------------------------------
  // The read loop as a step function

  /** The parameters of one read; `answers[k]` answers its k-th refill. */
  datatype ReadArgs = ReadArgs(length: int, useDelim: bool, delim: char,
                               path: string, mode: PipeMode, answers: seq<Refill>)

  /** The state at the top of the read loop: the channel, how many refills have
      been made, the last character taken, how many characters have been
      taken, and what has been copied into the scratch buffer. */
  datatype Scan = Scan(chan: Chan, refills: nat, ch: char, numread: nat, copies: seq<char>)

  datatype ReadEnd = ReadEnd(outcome: ReadOutcome, chan: Chan, refills: nat)

  datatype Move = Continue(next: Scan) | Stop(end: ReadEnd)

  /** How one pass through the loop body ended. */
  datatype PassEnd = Moved | Overflowed | RefillFailed | Starved

  /** The loop condition. Without a delimiter the character test compares `ch`
      with the truth value of `!ch`, which never equals it. */
  predicate Continues(a: ReadArgs, numread: int, ch: char) {
    numread < a.length && (!a.useDelim || ch != a.delim)
  }

  function Nuls(k: int): (s: seq<char>)
    ensures |s| == (if k < 0 then 0 else k)
    ensures forall j :: 0 <= j < |s| ==> s[j] == '\0'
  {
    seq(if k < 0 then 0 else k, _ => '\0')
  }

  /** string::assign of a character buffer: up to its first NUL, undefined
      when there is none inside it. */
  function Assign(buf: seq<char>): ReadOutcome {
    if '\0' in buf then Done(UntilNul(buf)) else Undefined
  }

  /** The end of a read whose loop has stopped: the scratch buffer holds the
      copies followed by the NULs it was cleared with. */
  function Finish(a: ReadArgs, s: Scan): ReadEnd {
    ReadEnd(Assign(s.copies + Nuls(a.length + 1 - |s.copies|)), s.chan, s.refills)
  }

  /** Characters still to take plus refills still answerable. */
  function Measure(a: ReadArgs, s: Scan): int {
    (a.length - s.numread) + (|a.answers| - s.refills)
  }

  /** The scratch buffer after the store at the top of the loop body: every
      pass but the first stores the last character taken. */
  function Copied(s: Scan): seq<char> {
    if s.numread > 0 then s.copies + [s.ch] else s.copies
  }

  /** The loop test at the bottom of the body. */
  function Decide(a: ReadArgs, next: Scan): Move {
    if Continues(a, next.numread, next.ch) then Continue(next) else Stop(Finish(a, next))
  }

  /** One pass through the body of the read loop. */
  function DrainStep(a: ReadArgs, s: Scan): (m: Move)
    requires s.refills <= |a.answers|
    ensures m.Continue? ==> m.next.numread < a.length && m.next.refills <= |a.answers|
    ensures m.Continue? ==> Measure(a, m.next) < Measure(a, s)
    ensures m.Stop? ==> m.end.refills <= |a.answers|
  {
    if s.numread > 0 && |s.copies| >= a.length + 1 then Stop(ReadEnd(Undefined, s.chan, s.refills))
    else if s.chan.window != [] then
      Decide(a, Scan(s.chan.(window := s.chan.window[1..]), s.refills, s.chan.window[0], s.numread + 1, Copied(s)))
    else if s.refills == |a.answers| then Stop(ReadEnd(Blocked, s.chan, s.refills))
    else
      var (ok, chan) := RefillStep(s.chan, a.path, a.mode, a.answers[s.refills]);
      if !ok then Stop(ReadEnd(Failed(ReadFail), chan, s.refills + 1))
      else Decide(a, Scan(chan, s.refills + 1, s.ch, s.numread, Copied(s)))
  }

  /** A buffer that holds only NULs from `pos` on is its first `pos`
      characters followed by NULs. */
  lemma NulPadded(d: seq<char>, pos: nat)
    requires pos <= |d|
    requires forall j :: pos <= j < |d| ==> d[j] == '\0'
    ensures d == d[..pos] + Nuls(|d| - pos)
  {
  }

  /** Finish reads the scratch buffer as the copies padded with NULs. */
  lemma FinishPadded(a: ReadArgs, s: Scan, d: seq<char>)
    requires |d| == a.length + 1 && |s.copies| <= |d|
    requires d == s.copies + Nuls(|d| - |s.copies|)
    ensures Finish(a, s) == ReadEnd(Assign(d), s.chan, s.refills)
  {
  }

  /** The read loop run to its end from scan `s`. */
  function Drain(a: ReadArgs, s: Scan): (e: ReadEnd)
    requires s.numread < a.length && s.refills <= |a.answers|
    ensures e.refills <= |a.answers|
    decreases Measure(a, s)
  {
    match DrainStep(a, s)
    case Stop(e) => e
    case Continue(next) => Drain(a, next)
  }

  /** read(dest, length, use_delim, delim) on channel `c`; `allocOk` says
      whether the scratch buffer could be allocated. */
  function ReadSpec(a: ReadArgs, c: Chan, allocOk: bool): (e: ReadEnd)
    ensures e.refills <= |a.answers|
  {
    if a.length <= 0 then ReadEnd(Done(""), c, 0)
    else if a.length >= INT_MAX then ReadEnd(Undefined, c, 0)
    else if !allocOk then ReadEnd(Failed(ReadFail), c, 0)
    else Drain(a, Scan(c, 0, '\0', 0, []))
  }

  // ---------------------------------------------------------------------------
  // Messages

  /** sprintf("%d") of a size_t: the low 32 bits, read as a signed int. */
  function LengthField(n: nat): string {
    var v := Wrap32(n);
    if v < 0 then "-" + Decimal(-v) else Decimal(v)
  }

  /** The characters sendMessage writes for `m`. */
  function Frame(m: Message): string {
    m.command + "\n" + LengthField(|m.body|) + "\n" + m.body + "\n"
  }

  /** Whether each of the three reads of getMessage can allocate its buffer. */
  datatype ReadAllocs = ReadAllocs(command: bool, length: bool, body: bool)

  /** How getMessage ends: a message, false, undefined behaviour, waiting
      beyond the answers given, or an exception that leaves it. */
  datatype Reception =
    | Received(msg: Message) | NotReceived | ReceiveUndefined | ReceiveBlocked | Thrown(err: PipeError)

  datatype ReceiveEnd = ReceiveEnd(reception: Reception, chan: Chan, refills: nat)

  /** What getMessage reports when one of its reads did not complete. */
  function Broken(o: ReadOutcome): Reception {
    match o
    case Undefined => ReceiveUndefined
    case Blocked => ReceiveBlocked
    case _ => NotReceived
  }

  /** The arguments of the reads of the command and length lines. */
  function LineArgs(path: string, mode: PipeMode, answers: seq<Refill>): ReadArgs {
    ReadArgs(PIPE_LINE_MAX, true, '\n', path, mode, answers)
  }

  /** The length of the body as getMessage computes it: atol of the length
      line, stored in an unsigned long and passed on as an int. */
  function BodyLength(line: string): int {
    Wrap32(Atol(line))
  }

  /** getMessage: two lines of at most PIPE_LINE_MAX characters, then a body
      whose length the second line gives. */
  function Receive(c: Chan, path: string, mode: PipeMode, allocs: ReadAllocs, answers: seq<Refill>): ReceiveEnd {
    if mode != PipeRdOnly then ReceiveEnd(Thrown(WrongMode), c, 0)
    else AfterCommand(ReadSpec(LineArgs(path, mode, answers), c, allocs.command), path, mode, allocs, answers)
  }

  /** getMessage once the command line has been read, ending as `e1`. */
  function AfterCommand(e1: ReadEnd, path: string, mode: PipeMode, allocs: ReadAllocs, answers: seq<Refill>): ReceiveEnd
    requires e1.refills <= |answers|
  {
    if !e1.outcome.Done? then ReceiveEnd(Broken(e1.outcome), e1.chan, e1.refills)
    else
      var rest := answers[e1.refills..];
      var e2 := ReadSpec(LineArgs(path, mode, rest), e1.chan, allocs.length);
      AfterLength(e1.outcome.text, e1.refills, e2, path, mode, allocs, rest)
  }

  /** getMessage once the length line has been read too, ending as `e2`,
      after `n1` refills for the command line; `rest` are the answers left
      after those. */
  function AfterLength(command: string, n1: nat, e2: ReadEnd, path: string, mode: PipeMode,
                       allocs: ReadAllocs, rest: seq<Refill>): ReceiveEnd
    requires e2.refills <= |rest|
  {
    if !e2.outcome.Done? then ReceiveEnd(Broken(e2.outcome), e2.chan, n1 + e2.refills)
    else
      var args := ReadArgs(BodyLength(e2.outcome.text), false, '\n', path, mode, rest[e2.refills..]);
      AfterBody(command, n1 + e2.refills, ReadSpec(args, e2.chan, allocs.body))
  }

  /** getMessage once the body has been read, ending as `e3`. */
  function AfterBody(command: string, n: nat, e3: ReadEnd): ReceiveEnd {
    if !e3.outcome.Done? then ReceiveEnd(Broken(e3.outcome), e3.chan, n + e3.refills)
    else ReceiveEnd(Received(Message(command, e3.outcome.text)), e3.chan, n + e3.refills)
  }

  // ---------------------------------------------------------------------------
  // The pipe object

  class Pipe {
    const name: string
    var fileD: int
    var pathname: string
    var mode: PipeMode
    const buffer: PipeBuffer
    /** The system calls issued so far, oldest first. */
    var calls: seq<SysCall>

    ghost predicate Valid()
      reads this, buffer
    {
      buffer.Valid() && buffer.size == PIPE_BUFFER_SIZE
    }

    ghost function State(): Chan
      reads this, buffer, buffer.data
      requires Valid()
    {
      Chan(buffer.Pending(), fileD, calls)
    }

    constructor (name: string)
      ensures Valid() && fresh(buffer) && fresh(buffer.data)
      ensures this.name == name && fileD == 0 && pathname == "" && mode == PipeRdOnly
      ensures State() == Chan([], 0, [])
    {
      this.name := name;
      fileD := 0;
      pathname := "";
      mode := PipeRdOnly;
      buffer := new PipeBuffer(PIPE_BUFFER_SIZE);
      calls := [];
    }

    /** Opens the FIFO at `pathname`; `ans` is what open(2) answers. */
    method Open(ans: OpenAnswer) returns (r: Outcome<PipeError>)
      requires Valid()
      modifies this`fileD, this`calls
      ensures Valid()
      ensures old(fileD) != 0 ==> r == Fail(IsOpen) && fileD == old(fileD) && calls == old(calls)
      ensures old(fileD) == 0 ==> calls == old(calls) + [SysOpen(pathname, FlagsFor(mode))]
      ensures old(fileD) == 0 && ans.Opened? ==> r == Pass && fileD == ans.fd
      ensures old(fileD) == 0 && ans == OpenRefused(ENXIO) ==> r == Fail(IsClosed) && fileD == 0
      ensures old(fileD) == 0 && ans.OpenRefused? && ans.errno != ENXIO ==> r == Fail(OpenFail) && fileD == 0
    {
      if fileD != 0 {
        return Fail(IsOpen);
      }
      calls := calls + [SysOpen(pathname, FlagsFor(mode))];
      match ans
      case Opened(fd) =>
        fileD := fd;
        r := Pass;
      case OpenRefused(e) =>
        fileD := 0;
        r := Fail(if e == ENXIO then IsClosed else OpenFail);
    }

    /** Creates the FIFO; `mk` is None when mkfifo(2) succeeds and the errno
        otherwise. An existing FIFO is accepted. */
    method Create(path: string, modeArg: int, mk: Option<Errno>) returns (r: Outcome<PipeError>)
      requires Valid()
      modifies this`fileD, this`pathname, this`mode, this`calls
      ensures Valid()
      ensures old(fileD) != 0 ==>
        r == Fail(IsOpen) && fileD == old(fileD) && pathname == old(pathname) && mode == old(mode) && calls == old(calls)
      ensures old(fileD) == 0 && (path == "" || ModeOf(modeArg).None?) ==>
        r == Fail(CreateFail) && fileD == 0 && pathname == old(pathname) && mode == old(mode) && calls == old(calls)
      ensures old(fileD) == 0 && path != "" && ModeOf(modeArg).Some? ==>
        calls == old(calls) + [SysMkfifo(path, CAP_FILE_MASK)]
      ensures old(fileD) == 0 && path != "" && ModeOf(modeArg).Some? && (mk.None? || mk == Some(EEXIST)) ==>
        r == Pass && fileD == 0 && pathname == path && mode == ModeOf(modeArg).value
      ensures old(fileD) == 0 && path != "" && ModeOf(modeArg).Some? && mk.Some? && mk.value != EEXIST ==>
        r == Fail(CreateFail) && fileD == -1 && pathname == old(pathname) && mode == old(mode)
    {
      if fileD != 0 {
        return Fail(IsOpen);
      }
      if path == "" {
        return Fail(CreateFail);
      }
      var m := ModeOf(modeArg);
      if m.None? {
        return Fail(CreateFail);
      }
      calls := calls + [SysMkfifo(path, CAP_FILE_MASK)];
      fileD := if mk.None? then 0 else -1;
      if mk.Some? && mk.value != EEXIST {
        return Fail(CreateFail);
      }
      fileD := 0;
      pathname := path;
      mode := m.value;
      r := Pass;
    }

    /** Closes the descriptor, if one is set; `ok` says whether close(2)
        succeeds. A failed close keeps the descriptor. */
    method Close(ok: bool)
      requires Valid()
      modifies this`fileD, this`calls
      ensures Valid()
      ensures State() == CloseStep(old(State()), ok)
      ensures old(fileD) == 0 ==> fileD == 0 && calls == old(calls)
      ensures old(fileD) != 0 ==>
        calls == old(calls) + [SysClose(old(fileD))] && fileD == (if ok then 0 else old(fileD))
    {
      if fileD == 0 {
        return;
      }
      calls := calls + [SysClose(fileD)];
      if ok {
        fileD := 0;
      }
    }

    /** The refill in read's handler for an empty buffer: open, fill the
        buffer from the descriptor, close; an exception skips what follows it. */
    method RefillBuffer(r: Refill) returns (ok: bool)
      requires Valid() && buffer.Pending() == []
      requires r.read.ReadGot? ==> |r.read.bytes| <= PIPE_BUFFER_SIZE
      modifies this`fileD, this`calls, buffer`curr, buffer`used, buffer.data
      ensures Valid()
      ensures (ok, State()) == RefillStep(old(State()), pathname, mode, r)
    {
      var op := Open(r.open);
      if op.Fail? {
        return false;
      }
      var got := buffer.Read(fileD, r.read);
      if got.Fail? {
        return false;
      }
      Close(r.closeOk);
      ok := true;
    }

    /** One pass through the body of read's loop: store the last character
        taken (on every pass but the first), then take the next character from
        the buffer or, when it is empty, refill the buffer. */
    method LoopPass(ghost a: ReadArgs, answers: seq<Refill>, dest: array<char>,
                    pos: nat, ch: char, numread: nat, k: nat)
      returns (e: PassEnd, pos': nat, ch': char, numread': nat, k': nat)
      requires Valid() && Fits(answers) && dest != buffer.data
      requires a.answers == answers && a.path == pathname && a.mode == mode
      requires pos <= dest.Length == a.length + 1 && k <= |answers|
      modifies this`fileD, this`calls, buffer`curr, buffer`used, buffer.data, dest
      ensures Valid()
      ensures pos <= pos' <= dest.Length
      ensures forall j :: pos' <= j < dest.Length ==> dest[j] == old(dest[j])
      ensures var s := Scan(old(State()), k, ch, numread, old(dest[..pos]));
        match e
        case Overflowed => DrainStep(a, s) == Stop(ReadEnd(Undefined, State(), k'))
        case Starved => DrainStep(a, s) == Stop(ReadEnd(Blocked, State(), k'))
        case RefillFailed => DrainStep(a, s) == Stop(ReadEnd(Failed(ReadFail), State(), k'))
        case Moved => DrainStep(a, s) == Decide(a, Scan(State(), k', ch', numread', dest[..pos']))
    {
      ghost var s := Scan(State(), k, ch, numread, dest[..pos]);
      pos', ch', numread', k' := pos, ch, numread, k;
      if numread > 0 {
        if pos == dest.Length {
          return Overflowed, pos', ch', numread', k';
        }
        dest[pos] := ch;
        pos' := pos + 1;
      }
      assert dest[..pos'] == Copied(s);
      var next := buffer.Next();
      if next.Success? {
        ch' := next.value;
        numread' := numread + 1;
        e := Moved;
      } else if k == |answers| {
        e := Starved;
      } else {
        var ok := RefillBuffer(answers[k]);
        k' := k + 1;
        e := if ok then Moved else RefillFailed;
      }
    }

    /** read(): takes characters from the buffer, refilling it when empty,
        until `length` characters have been taken or, with `useDelim`, the
        delimiter has been taken. `answers[k]` answers the k-th refill. */
    method Read(length: int, useDelim: bool, delim: char, allocOk: bool, answers: seq<Refill>)
      returns (r: ReadOutcome, refills: nat)
      requires Valid() && Fits(answers)
      modifies this`fileD, this`calls, buffer`curr, buffer`used, buffer.data
      ensures Valid()
      ensures ReadSpec(ReadArgs(length, useDelim, delim, pathname, mode, answers), old(State()), allocOk)
              == ReadEnd(r, State(), refills)
    {
      ghost var a := ReadArgs(length, useDelim, delim, pathname, mode, answers);
      if length <= 0 {
        return Done(""), 0;
      }
      if length >= INT_MAX {
        return Undefined, 0;
      }
      if !allocOk {
        return Failed(ReadFail), 0;
      }
      var dest := new char[length + 1](_ => '\0');
      var pos: nat := 0;
      var ch := '\0';
      var numread: nat := 0;
      var k: nat := 0;
      ghost var c0 := State();
      ghost var goal := Drain(a, Scan(c0, 0, '\0', 0, []));
      assert ReadSpec(a, old(State()), allocOk) == goal;
      while true
        invariant Valid()
        invariant dest.Length == length + 1 && 0 <= pos <= length + 1 && dest != buffer.data
        invariant forall j :: pos <= j < dest.Length ==> dest[j] == '\0'
        invariant 0 <= numread < length && k <= |answers|
        invariant Drain(a, Scan(State(), k, ch, numread, dest[..pos])) == goal
        decreases Measure(a, Scan(State(), k, ch, numread, dest[..pos]))
      {
        ghost var s := Scan(State(), k, ch, numread, dest[..pos]);
        var e;
        e, pos, ch, numread, k := LoopPass(a, answers, dest, pos, ch, numread, k);
        if e == Overflowed {
          assert goal == ReadEnd(Undefined, State(), k);
          return Undefined, k;
        } else if e == Starved {
          assert goal == ReadEnd(Blocked, State(), k);
          return Blocked, k;
        } else if e == RefillFailed {
          assert goal == ReadEnd(Failed(ReadFail), State(), k);
          return Failed(ReadFail), k;
        }
        if !(numread < length && (!useDelim || ch != delim)) {
          ghost var last := Scan(State(), k, ch, numread, dest[..pos]);
          assert goal == Finish(a, last);
          NulPadded(dest[..], pos);
          FinishPadded(a, last, dest[..]);
          r, refills := Assign(dest[..]), k;
          break;
        }
      }
    }

    /** write(): open the FIFO, write the whole string with one write(2),
        close. Only a result of -1 from write(2) counts as a failure. */
    method Write(src: string, env: WriteEnv) returns (r: Outcome<PipeError>)
      requires Valid()
      modifies this`fileD, this`calls
      ensures Valid()
      ensures (r, State()) == WriteStep(old(State()), pathname, mode, src, env)
    {
      r := Open(env.open);
      if r.Fail? {
        return;
      }
      calls := calls + [SysWrite(fileD, src)];
      if !env.writeOk {
        return Fail(WriteFail);
      }
      Close(env.closeOk);
    }

    /** sendMessage(): frames the message and writes it. A pipe that is not
        write-only throws WrongMode; any failure of the write is reported as
        false. */
    method SendMessage(m: Message, env: WriteEnv) returns (r: Result<bool, PipeError>)
      requires Valid()
      modifies this`fileD, this`calls
      ensures Valid()
      ensures mode != PipeWrOnly ==> r == Failure(WrongMode) && State() == old(State())
      ensures mode == PipeWrOnly ==>
        var (o, c) := WriteStep(old(State()), pathname, mode, Frame(m), env);
        r == Success(o.Pass?) && State() == c
    {
      if mode != PipeWrOnly {
        return Failure(WrongMode);
      }
      var message := m.command + "\n";
      message := message + LengthField(|m.body|);
      message := message + "\n";
      message := message + m.body;
      message := message + "\n";
      var w := Write(message, env);
      r := Success(w.Pass?);
    }

    /** getMessage(): the command line, the length line, then a body of the
        length the second line gives. A pipe that is not read-only throws
        WrongMode; a failed read is reported as false. */
    method GetMessage(allocs: ReadAllocs, answers: seq<Refill>) returns (r: Reception, refills: nat)
      requires Valid() && Fits(answers)
      modifies this`fileD, this`calls, buffer`curr, buffer`used, buffer.data
      ensures Valid()
      ensures Receive(old(State()), pathname, mode, allocs, answers) == ReceiveEnd(r, State(), refills)
    {
      if mode != PipeRdOnly {
        return Thrown(WrongMode), 0;
      }
      ghost var c0 := State();
      var command, n1 := Read(PIPE_LINE_MAX, true, '\n', allocs.command, answers);
      ghost var e1 := ReadEnd(command, State(), n1);
      assert Receive(c0, pathname, mode, allocs, answers) == AfterCommand(e1, pathname, mode, allocs, answers);
      if !command.Done? {
        return Broken(command), n1;
      }
      var rest := answers[n1..];
      FitsSuffix(answers, n1);
      var lengthLine, n2 := Read(PIPE_LINE_MAX, true, '\n', allocs.length, rest);
      ghost var e2 := ReadEnd(lengthLine, State(), n2);
      assert AfterCommand(e1, pathname, mode, allocs, answers) == AfterLength(command.text, n1, e2, pathname, mode, allocs, rest);
      if !lengthLine.Done? {
        return Broken(lengthLine), n1 + n2;
      }
      var length := BodyLength(lengthLine.text);
      FitsSuffix(rest, n2);
      var body, n3 := Read(length, false, '\n', allocs.body, rest[n2..]);
      ghost var e3 := ReadEnd(body, State(), n3);
      assert AfterLength(command.text, n1, e2, pathname, mode, allocs, rest) == AfterBody(command.text, n1 + n2, e3);
      refills := n1 + n2 + n3;
      if !body.Done? {
        return Broken(body), refills;
      }
      r := Received(Message(command.text, body.text));
    }
  }

  /** The constructor's checks: no log, or a read buffer that cannot be allocated. */
  method NewPipe(name: string, hasLog: bool, allocOk: bool) returns (r: Result<Pipe, PipeError>)
    ensures !hasLog ==> r == Failure(NoErrLog)
    ensures hasLog && !allocOk ==> r == Failure(BufferFail)
    ensures hasLog && allocOk ==>
      r.Success? && fresh(r.value) && r.value.Valid() && r.value.name == name
      && r.value.fileD == 0 && r.value.pathname == "" && r.value.mode == PipeRdOnly
      && r.value.State() == Chan([], 0, [])
  {
    if !hasLog {
      return Failure(NoErrLog);
    }
    if !allocOk {
      return Failure(BufferFail);
    }
    var p := new Pipe(name);
    r := Success(p);
  }
}
