/** What CAP_Pipe's read, getMessage and write do, proved about the functions
    of module Pipe that the pipe's methods are proved against. */
module PipeProps {

  import opened Wrappers
  import opened Defs
  import opened Strings
  import opened Numerals
  import opened Pipe

  /** A character buffer padded with at least one NUL reads as the C string
      it starts with. */
  lemma UntilNulPadded(x: string, k: nat)
    requires k >= 1
    ensures '\0' in x + Nuls(k)
    ensures UntilNul(x + Nuls(k)) == UntilNul(x)
  {
    var s := x + Nuls(k);
    assert s[|x|] == '\0';
    var r := UntilNul(x);
    assert r <= s by {
      assert r == x[..|r|];
      assert s[..|r|] == x[..|r|];
    }
    if '\0' in x {
      assert s[|r|] == x[|r|];
    }
    UntilNulAt(s, r);
  }

  /** The loop test holds for the characters after the first one taken. */
  lemma ShiftContinues(a: ReadArgs, w: seq<char>, j: nat, base: int)
    requires 0 < j <= |w|
    requires forall t :: 0 <= t < j ==> Continues(a, base + t + 1, w[t])
    ensures forall t :: 0 <= t < j - 1 ==> Continues(a, base + 1 + t + 1, w[1..][t])
  {
    forall t | 0 <= t < j - 1
      ensures Continues(a, base + 1 + t + 1, w[1..][t])
    {
      assert w[1..][t] == w[t + 1];
      assert Continues(a, base + (t + 1) + 1, w[t + 1]);
    }
  }

  /** Taking `w[0]` and then `j - 1` more characters takes `w[..j]`. */
  lemma TakeMore(xs: seq<char>, w: seq<char>, j: nat)
    requires 0 < j < |w|
    ensures xs + [w[0]] + w[1..][..j - 1] == xs + w[..j]
    ensures w[1..][j - 1] == w[j] && w[1..][j - 1 + 1..] == w[j + 1..]
  {
    assert w[..j] == [w[0]] + w[1..][..j - 1];
  }

  /** From a scan that has taken at least one character, with no refill due,
      the loop stops right after taking `window[j]`, the first character after
      which the loop test fails. */
  lemma {:induction false} DrainWindow(a: ReadArgs, s: Scan, j: nat)
    requires 0 < s.numread < a.length && s.refills <= |a.answers|
    requires |s.copies| == s.numread - 1
    requires j < |s.chan.window|
    requires forall t :: 0 <= t < j ==> Continues(a, s.numread + t + 1, s.chan.window[t])
    requires !Continues(a, s.numread + j + 1, s.chan.window[j])
    ensures Drain(a, s) == Finish(a, Scan(s.chan.(window := s.chan.window[j + 1..]), s.refills,
                                          s.chan.window[j], s.numread + j + 1,
                                          s.copies + [s.ch] + s.chan.window[..j]))
    decreases j
  {
    var w := s.chan.window;
    var next := Scan(s.chan.(window := w[1..]), s.refills, w[0], s.numread + 1, s.copies + [s.ch]);
    assert DrainStep(a, s) == Decide(a, next);
    if j == 0 {
      assert Drain(a, s) == Finish(a, next);
      assert s.copies + [s.ch] + w[..0] == next.copies;
    } else {
      assert Continues(a, s.numread + 1, w[0]);
      assert Drain(a, s) == Drain(a, next);
      ShiftContinues(a, w, j, s.numread);
      TakeMore(s.copies + [s.ch], w, j);
      DrainWindow(a, next, j - 1);
      assert next.chan.(window := w[j + 1..]) == s.chan.(window := w[j + 1..]);
    }
  }

  /** The loop at its start takes `window[0]` and goes on to the scan that
      DrainWindow continues from. */
  lemma DrainFromLater(a: ReadArgs, c: Chan, r: nat, j: nat)
    requires 0 < a.length && r <= |a.answers|
    requires 0 < j < |c.window|
    requires forall t :: 0 <= t < j ==> Continues(a, t + 1, c.window[t])
    requires !Continues(a, j + 1, c.window[j])
    ensures Drain(a, Scan(c, r, '\0', 0, []))
            == Finish(a, Scan(c.(window := c.window[j + 1..]), r, c.window[j], j + 1, c.window[..j]))
  {
    var w := c.window;
    var s0 := Scan(c, r, '\0', 0, []);
    var s1 := Scan(c.(window := w[1..]), r, w[0], 1, []);
    assert DrainStep(a, s0) == Decide(a, s1);
    assert Continues(a, 1, w[0]);
    assert Drain(a, s0) == Drain(a, s1);
    ShiftContinues(a, w, j, 0);
    TakeMore([], w, j);
    DrainWindow(a, s1, j - 1);
    var last := Scan(c.(window := w[j + 1..]), r, w[j], j + 1, w[..j]);
    assert s1.chan.(window := s1.chan.window[j - 1 + 1..]) == last.chan;
    assert [] + [s1.ch] + s1.chan.window[..j - 1] == last.copies;
    assert Drain(a, s1) == Finish(a, last);
  }

  /** A loop at its start, after `r` refills that delivered nothing taken
      yet, served from the buffer alone: it stops after taking `window[j]`,
      returns the characters taken before it, and leaves the rest of the
      buffer pending. */
  lemma DrainFrom(a: ReadArgs, c: Chan, r: nat, j: nat)
    requires 0 < a.length && r <= |a.answers|
    requires j < |c.window|
    requires forall t :: 0 <= t < j ==> Continues(a, t + 1, c.window[t])
    requires !Continues(a, j + 1, c.window[j])
    ensures Drain(a, Scan(c, r, '\0', 0, [])) == ReadEnd(Done(UntilNul(c.window[..j])), c.(window := c.window[j + 1..]), r)
  {
    var w := c.window;
    var last := Scan(c.(window := w[j + 1..]), r, w[j], j + 1, w[..j]);
    if j == 0 {
      var s0 := Scan(c, r, '\0', 0, []);
      assert w[..0] == [];
      assert DrainStep(a, s0) == Decide(a, Scan(c.(window := w[1..]), r, w[0], 1, []));
    } else {
      DrainFromLater(a, c, r, j);
      assert Continues(a, j, w[j - 1]);
    }
    FinishDone(a, last);
  }

  /** A read served from the buffer alone. */
  lemma ReadWindow(a: ReadArgs, c: Chan, j: nat)
    requires 0 < a.length < INT_MAX
    requires j < |c.window|
    requires forall t :: 0 <= t < j ==> Continues(a, t + 1, c.window[t])
    requires !Continues(a, j + 1, c.window[j])
    ensures ReadSpec(a, c, true) == ReadEnd(Done(UntilNul(c.window[..j])), c.(window := c.window[j + 1..]), 0)
  {
    assert ReadSpec(a, c, true) == Drain(a, Scan(c, 0, '\0', 0, []));
    DrainFrom(a, c, 0, j);
  }

  /** A loop that stops with at most `length` characters copied assigns the
      C string they begin with. */
  lemma FinishDone(a: ReadArgs, s: Scan)
    requires |s.copies| <= a.length
    ensures Finish(a, s) == ReadEnd(Done(UntilNul(s.copies)), s.chan, s.refills)
  {
    UntilNulPadded(s.copies, a.length + 1 - |s.copies|);
  }

  /** A line shorter than PIPE_LINE_MAX is read up to its newline, which is
      taken from the buffer but not kept. */
  lemma LineRead(c: Chan, path: string, mode: PipeMode, answers: seq<Refill>, i: nat)
    requires i < PIPE_LINE_MAX && i < |c.window| && c.window[i] == '\n' && '\n' !in c.window[..i]
    ensures ReadSpec(LineArgs(path, mode, answers), c, true)
            == ReadEnd(Done(UntilNul(c.window[..i])), c.(window := c.window[i + 1..]), 0)
  {
    var a := LineArgs(path, mode, answers);
    forall t | 0 <= t < i
      ensures Continues(a, t + 1, c.window[t])
    {
      assert c.window[t] == c.window[..i][t];
    }
    ReadWindow(a, c, i);
  }

  /** A line of PIPE_LINE_MAX characters or more is cut: the first
      PIPE_LINE_MAX - 1 characters are returned, the next one is lost, and
      the rest stays pending. */
  lemma LongLine(c: Chan, path: string, mode: PipeMode, answers: seq<Refill>)
    requires PIPE_LINE_MAX <= |c.window| && '\n' !in c.window[..PIPE_LINE_MAX - 1]
    ensures ReadSpec(LineArgs(path, mode, answers), c, true)
            == ReadEnd(Done(UntilNul(c.window[..PIPE_LINE_MAX - 1])), c.(window := c.window[PIPE_LINE_MAX..]), 0)
  {
    var a := LineArgs(path, mode, answers);
    forall t | 0 <= t < PIPE_LINE_MAX - 1
      ensures Continues(a, t + 1, c.window[t])
    {
      assert c.window[t] == c.window[..PIPE_LINE_MAX - 1][t];
    }
    ReadWindow(a, c, PIPE_LINE_MAX - 1);
  }

  /** A read of `length` characters without a delimiter, served from the
      buffer: it takes `length` characters and returns all but the last. */
  lemma FixedRead(a: ReadArgs, c: Chan)
    requires !a.useDelim && 0 < a.length < INT_MAX && a.length <= |c.window|
    ensures ReadSpec(a, c, true)
            == ReadEnd(Done(UntilNul(c.window[..a.length - 1])), c.(window := c.window[a.length..]), 0)
  {
    ReadWindow(a, c, a.length - 1);
  }

  /** A successful refill in the middle of a read stores the last character
      taken a second time: after the refill, the next pass stores it again
      and takes the first character delivered. */
  lemma RefillRepeats(a: ReadArgs, s: Scan)
    requires 0 < s.numread < a.length && s.refills < |a.answers| && |s.copies| < a.length
    requires s.chan.window == [] && Continues(a, s.numread, s.ch)
    requires RefillStep(s.chan, a.path, a.mode, a.answers[s.refills]).0
    requires a.answers[s.refills].read.bytes != []
    ensures var chan := RefillStep(s.chan, a.path, a.mode, a.answers[s.refills]).1;
            var bytes := a.answers[s.refills].read.bytes;
            var s1 := Scan(chan, s.refills + 1, s.ch, s.numread, s.copies + [s.ch]);
            DrainStep(a, s) == Continue(s1)
            && DrainStep(a, s1) == Decide(a, Scan(chan.(window := bytes[1..]), s.refills + 1, bytes[0],
                                                  s.numread + 1, s.copies + [s.ch, s.ch]))
  {
    assert s.copies + [s.ch] + [s.ch] == s.copies + [s.ch, s.ch];
  }

  /** The repeated characters overflow the scratch buffer: a read of 3
      characters from a buffer holding "a", refilled with "b" and then "c",
      copies "aabb" into its 4 bytes, leaving no NUL for string::assign. */
  lemma ScratchUnterminated()
    ensures var answers := [Refill(Opened(3), ReadGot("b"), true), Refill(Opened(3), ReadGot("c"), true)];
      ReadSpec(ReadArgs(3, false, '\0', "p", PipeRdOnly, answers), Chan("a", 0, []), true).outcome == Undefined
  {
    var answers := [Refill(Opened(3), ReadGot("b"), true), Refill(Opened(3), ReadGot("c"), true)];
    var a := ReadArgs(3, false, '\0', "p", PipeRdOnly, answers);
    var calls1 := [SysOpen("p", FlagsFor(PipeRdOnly)), SysClose(3)];
    var calls2 := calls1 + calls1;
    var s1 := Scan(Chan("", 0, []), 0, 'a', 1, []);
    var s2 := Scan(Chan("b", 0, calls1), 1, 'a', 1, "a");
    var s3 := Scan(Chan("", 0, calls1), 1, 'b', 2, "aa");
    var s4 := Scan(Chan("c", 0, calls2), 2, 'b', 2, "aab");
    var s5 := Scan(Chan("", 0, calls2), 2, 'c', 3, "aabb");
    assert DrainStep(a, Scan(Chan("a", 0, []), 0, '\0', 0, [])) == Continue(s1);
    assert DrainStep(a, s1) == Continue(s2);
    assert DrainStep(a, s2) == Continue(s3);
    assert DrainStep(a, s3) == Continue(s4);
    assert DrainStep(a, s4) == Stop(Finish(a, s5));
    assert Nuls(0) == [];
    assert '\0' !in "aabb" + Nuls(0);
  }

  /** A refill that delivers nothing, in the middle of a read: the last
      character taken is stored again and the loop goes on. */
  lemma EmptyRefillStep(a: ReadArgs, s: Scan, fd: nat)
    requires 0 < s.numread < a.length && Continues(a, s.numread, s.ch) && |s.copies| <= a.length
    requires s.chan.window == [] && s.chan.fd == 0 && fd != 0
    requires s.refills < |a.answers| && a.answers[s.refills] == Refill(Opened(fd), ReadGot(""), true)
    ensures DrainStep(a, s) == Continue(Scan(s.chan.(calls := s.chan.calls + [SysOpen(a.path, FlagsFor(a.mode)), SysClose(fd)]),
                                             s.refills + 1, s.ch, s.numread, s.copies + [s.ch]))
  {
    assert s.chan.calls + [SysOpen(a.path, FlagsFor(a.mode))] + [SysClose(fd)]
        == s.chan.calls + [SysOpen(a.path, FlagsFor(a.mode)), SysClose(fd)];
  }

  /** Refills that deliver nothing store the last character again each time,
      until the store runs past the scratch buffer. */
  lemma {:induction false} EmptyRefillsOverflow(a: ReadArgs, s: Scan, fd: nat)
    requires 0 < s.numread < a.length && Continues(a, s.numread, s.ch) && |s.copies| <= a.length + 1
    requires s.chan.window == [] && s.chan.fd == 0 && fd != 0
    requires s.refills + (a.length + 1 - |s.copies|) <= |a.answers|
    requires forall k :: s.refills <= k < |a.answers| ==> a.answers[k] == Refill(Opened(fd), ReadGot(""), true)
    ensures Drain(a, s).outcome == Undefined
    decreases a.length + 1 - |s.copies|
  {
    if |s.copies| <= a.length {
      EmptyRefillStep(a, s, fd);
      var next := Scan(s.chan.(calls := s.chan.calls + [SysOpen(a.path, FlagsFor(a.mode)), SysClose(fd)]),
                       s.refills + 1, s.ch, s.numread, s.copies + [s.ch]);
      EmptyRefillsOverflow(a, next, fd);
    }
  }

  /** A read of more than one character that finds a single character
      pending, followed by refills that deliver nothing, writes past its
      scratch buffer. */
  lemma ReadEmptyRefills(a: ReadArgs, c: Chan, fd: nat)
    requires 1 < a.length < INT_MAX && |c.window| == 1 && Continues(a, 1, c.window[0])
    requires c.fd == 0 && fd != 0 && a.length + 1 <= |a.answers|
    requires forall k :: 0 <= k < |a.answers| ==> a.answers[k] == Refill(Opened(fd), ReadGot(""), true)
    ensures ReadSpec(a, c, true).outcome == Undefined
  {
    var s1 := Scan(c.(window := []), 0, c.window[0], 1, []);
    assert DrainStep(a, Scan(c, 0, '\0', 0, [])) == Continue(s1);
    EmptyRefillsOverflow(a, s1, fd);
  }

  /** Whatever fails inside the read loop, read throws ReadFail. */
  lemma {:induction false} DrainFailsWithReadFail(a: ReadArgs, s: Scan)
    requires s.numread < a.length && s.refills <= |a.answers|
    ensures Drain(a, s).outcome.Failed? ==> Drain(a, s).outcome.err == ReadFail
    decreases Measure(a, s)
  {
    match DrainStep(a, s)
    case Stop(e) =>
    case Continue(next) => DrainFailsWithReadFail(a, next);
  }

  lemma ReadFailsWithReadFail(a: ReadArgs, c: Chan, allocOk: bool)
    ensures ReadSpec(a, c, allocOk).outcome.Failed? ==> ReadSpec(a, c, allocOk).outcome.err == ReadFail
  {
    if 0 < a.length < INT_MAX && allocOk {
      DrainFailsWithReadFail(a, Scan(c, 0, '\0', 0, []));
    }
  }

  /** Whatever a read returns is at most `length` characters long and holds
      no NUL. */
  lemma {:induction false} DrainBounded(a: ReadArgs, s: Scan)
    requires s.numread < a.length && s.refills <= |a.answers| && |s.copies| <= a.length + 1
    ensures Drain(a, s).outcome.Done? ==> |Drain(a, s).outcome.text| <= a.length
    ensures Drain(a, s).outcome.Done? ==> '\0' !in Drain(a, s).outcome.text
    decreases Measure(a, s)
  {
    match DrainStep(a, s)
    case Stop(e) =>
    case Continue(next) => DrainBounded(a, next);
  }

  lemma ReadBounded(a: ReadArgs, c: Chan, allocOk: bool)
    ensures var o := ReadSpec(a, c, allocOk).outcome;
            o.Done? ==> |o.text| <= (if a.length < 0 then 0 else a.length) && '\0' !in o.text
  {
    if 0 < a.length < INT_MAX && allocOk {
      DrainBounded(a, Scan(c, 0, '\0', 0, []));
    }
  }

  /** The copies padded with NULs, read as a C string, hold no character the
      copies do not hold, NUL aside. */
  lemma PaddedAvoids(copies: string, k: int, d: char)
    requires d !in copies && d != '\0'
    ensures Assign(copies + Nuls(k)).Done? ==> d !in Assign(copies + Nuls(k)).text
  {
    var buf := copies + Nuls(k);
    if '\0' in buf {
      var t := UntilNul(buf);
      forall i | 0 <= i < |t| ensures t[i] != d {
        assert t[i] == buf[i];
      }
    }
  }

  /** With a delimiter, the delimiter never appears in what a read returns. */
  lemma {:induction false} DrainAvoidsDelim(a: ReadArgs, s: Scan)
    requires a.useDelim && s.numread < a.length && s.refills <= |a.answers|
    requires a.delim !in s.copies && (s.numread > 0 ==> s.ch != a.delim)
    ensures Drain(a, s).outcome.Done? ==> a.delim !in Drain(a, s).outcome.text
    decreases Measure(a, s)
  {
    match DrainStep(a, s)
    case Stop(e) =>
      if e.outcome.Done? && a.delim != '\0' {
        var next :| Decide(a, next) == Stop(e) && a.delim !in next.copies;
        PaddedAvoids(next.copies, a.length + 1 - |next.copies|, a.delim);
      }
    case Continue(next) => DrainAvoidsDelim(a, next);
  }

  lemma ReadAvoidsDelim(a: ReadArgs, c: Chan, allocOk: bool)
    requires a.useDelim
    ensures var o := ReadSpec(a, c, allocOk).outcome;
            o.Done? ==> a.delim !in o.text
  {
    if 0 < a.length < INT_MAX && allocOk {
      DrainAvoidsDelim(a, Scan(c, 0, '\0', 0, []));
    }
  }

  /** A read(2) that fails after a successful open(2) throws before the
      close, so the descriptor stays set. */
  lemma FailedRefillKeepsDescriptor(a: ReadArgs, c: Chan, fd: nat, closeOk: bool)
    requires 0 < a.length < INT_MAX && c.fd == 0 && c.window == [] && fd != 0
    requires |a.answers| > 0 && a.answers[0] == Refill(Opened(fd), ReadError, closeOk)
    ensures ReadSpec(a, c, true)
            == ReadEnd(Failed(ReadFail), c.(fd := fd, calls := c.calls + [SysOpen(a.path, FlagsFor(a.mode))]), 1)
  {
    assert DrainStep(a, Scan(c, 0, '\0', 0, [])).Stop?;
  }

  /** With the descriptor still set and the buffer empty, every read fails at
      its first refill without a system call and changes nothing: the pipe
      is stuck. */
  lemma StuckRead(a: ReadArgs, c: Chan)
    requires 0 < a.length < INT_MAX && c.fd != 0 && c.window == [] && |a.answers| > 0
    ensures ReadSpec(a, c, true) == ReadEnd(Failed(ReadFail), c, 1)
  {
    assert DrainStep(a, Scan(c, 0, '\0', 0, [])).Stop?;
  }

  lemma StuckReceive(c: Chan, path: string, answers: seq<Refill>)
    requires c.fd != 0 && c.window == [] && |answers| > 0
    ensures Receive(c, path, PipeRdOnly, ReadAllocs(true, true, true), answers) == ReceiveEnd(NotReceived, c, 1)
  {
    StuckRead(LineArgs(path, PipeRdOnly, answers), c);
  }

  /** A failed write(2) throws before the close, so the descriptor stays set;
      every later write then fails with IsOpen and changes nothing. */
  lemma FailedWriteKeepsDescriptor(c: Chan, path: string, mode: PipeMode, src: string, fd: nat, closeOk: bool)
    requires c.fd == 0 && fd != 0
    ensures WriteStep(c, path, mode, src, WriteEnv(Opened(fd), false, closeOk))
            == (Fail(WriteFail), c.(fd := fd, calls := c.calls + [SysOpen(path, FlagsFor(mode)), SysWrite(fd, src)]))
    ensures forall src', env :: WriteStep(c.(fd := fd), path, mode, src', env) == (Fail(IsOpen), c.(fd := fd))
  {
    assert c.calls + [SysOpen(path, FlagsFor(mode))] + [SysWrite(fd, src)]
        == c.calls + [SysOpen(path, FlagsFor(mode)), SysWrite(fd, src)];
  }

  /** A successful write appends exactly the open, the write and the close. */
  lemma WriteCalls(c: Chan, path: string, mode: PipeMode, src: string, fd: nat)
    requires c.fd == 0 && fd != 0
    ensures WriteStep(c, path, mode, src, WriteEnv(Opened(fd), true, true))
            == (Pass, c.(calls := c.calls + [SysOpen(path, FlagsFor(mode)), SysWrite(fd, src), SysClose(fd)]))
  {
    assert c.calls + [SysOpen(path, FlagsFor(mode))] + [SysWrite(fd, src)] + [SysClose(fd)]
        == c.calls + [SysOpen(path, FlagsFor(mode)), SysWrite(fd, src), SysClose(fd)];
  }

  /** The length line of a body shorter than 2^31 characters is its decimal
      length, and getMessage reads it back as that length. */
  lemma LengthFieldRoundTrip(n: nat)
    requires n <= INT_MAX
    ensures LengthField(n) == Decimal(n)
    ensures 1 <= |LengthField(n)| <= 10
    ensures '\n' !in LengthField(n) && '\0' !in LengthField(n)
    ensures BodyLength(LengthField(n)) == n
  {
    assert n % TWO_TO_32 == n;
    assert Wrap32(n) == n;
    var d := Decimal(n);
    assert LengthField(n) == d;
    DecimalLength(n);
    assert forall k :: 0 <= k < |d| ==> d[k] != '\n' && d[k] != '\0';
    AtolDecimal(n);
    assert BodyLength(d) == Wrap32(n);
  }

  /** Everything but the last character. */
  function DropLast(s: string): (r: string)
    ensures |s| > 0 ==> s == r + [s[|s| - 1]]
    ensures |s| == 0 ==> r == ""
  {
    if |s| == 0 then "" else s[..|s| - 1]
  }

  /** A frame's command line, read from the front of the buffer. */
  lemma CommandLineRead(c: Chan, path: string, answers: seq<Refill>, m: Message, rest: string)
    requires |m.command| < PIPE_LINE_MAX && '\n' !in m.command && '\0' !in m.command
    requires c.window == Frame(m) + rest
    ensures ReadSpec(LineArgs(path, PipeRdOnly, answers), c, true)
            == ReadEnd(Done(m.command), c.(window := LengthField(|m.body|) + "\n" + m.body + "\n" + rest), 0)
  {
    var w := c.window;
    var i := |m.command|;
    assert w == m.command + "\n" + (LengthField(|m.body|) + "\n" + m.body + "\n" + rest);
    assert w[..i] == m.command && w[i] == '\n';
    LineRead(c, path, PipeRdOnly, answers, i);
  }

  /** A frame's length line, read once the command line is gone. */
  lemma LengthLineRead(c: Chan, path: string, answers: seq<Refill>, n: nat, tail: string)
    requires n <= INT_MAX
    requires c.window == LengthField(n) + "\n" + tail
    ensures ReadSpec(LineArgs(path, PipeRdOnly, answers), c, true)
            == ReadEnd(Done(LengthField(n)), c.(window := tail), 0)
  {
    var d := LengthField(n);
    LengthFieldRoundTrip(n);
    assert c.window[..|d|] == d && c.window[|d|] == '\n' && c.window[|d| + 1..] == tail;
    LineRead(c, path, PipeRdOnly, answers, |d|);
  }

  /** A frame's body, read once both lines are gone. */
  lemma BodyRead(c: Chan, path: string, answers: seq<Refill>, body: string, rest: string)
    requires '\0' !in body && |body| < INT_MAX
    requires c.window == body + "\n" + rest
    ensures ReadSpec(ReadArgs(|body|, false, '\n', path, PipeRdOnly, answers), c, true)
            == ReadEnd(Done(DropLast(body)), c.(window := "\n" + rest), 0)
  {
    var n := |body|;
    if n > 0 {
      FixedRead(ReadArgs(n, false, '\n', path, PipeRdOnly, answers), c);
      assert c.window[..n - 1] == DropLast(body) && c.window[n..] == "\n" + rest;
    } else {
      assert c.window == "\n" + rest;
    }
  }

  /** The round trip of sendMessage and getMessage: a frame at the front of
      the buffer is received with its command intact but without the last
      character of its body, and the newline that ends the frame stays
      pending, to be read as the next message's command line. */
  lemma FrameReceived(c: Chan, path: string, answers: seq<Refill>, m: Message, rest: string)
    requires |m.command| < PIPE_LINE_MAX && '\n' !in m.command && '\0' !in m.command
    requires '\0' !in m.body && |m.body| < INT_MAX
    requires c.window == Frame(m) + rest
    ensures Receive(c, path, PipeRdOnly, ReadAllocs(true, true, true), answers)
            == ReceiveEnd(Received(Message(m.command, DropLast(m.body))), c.(window := "\n" + rest), 0)
  {
    var allocs := ReadAllocs(true, true, true);
    var n := |m.body|;
    var d := LengthField(n);
    var c1 := c.(window := d + "\n" + m.body + "\n" + rest);
    var c2 := c.(window := m.body + "\n" + rest);
    var e1 := ReadEnd(Done(m.command), c1, 0);
    var e2 := ReadEnd(Done(d), c2, 0);
    var e3 := ReadEnd(Done(DropLast(m.body)), c.(window := "\n" + rest), 0);
    CommandLineRead(c, path, answers, m, rest);
    assert Receive(c, path, PipeRdOnly, allocs, answers) == AfterCommand(e1, path, PipeRdOnly, allocs, answers);
    assert answers[0..] == answers;
    LengthLineRead(c1, path, answers, n, m.body + "\n" + rest);
    assert AfterCommand(e1, path, PipeRdOnly, allocs, answers)
        == AfterLength(m.command, 0, e2, path, PipeRdOnly, allocs, answers);
    LengthFieldRoundTrip(n);
    BodyRead(c2, path, answers, m.body, rest);
    assert AfterLength(m.command, 0, e2, path, PipeRdOnly, allocs, answers) == AfterBody(m.command, 0, e3);
  }

  /** A frame's command line, read from an empty buffer that one refill
      fills with the frame. */
  lemma CommandAfterRefill(c: Chan, path: string, answers: seq<Refill>, m: Message, rest: string, fd: nat)
    requires |m.command| < PIPE_LINE_MAX && '\n' !in m.command && '\0' !in m.command
    requires c.window == [] && c.fd == 0 && fd != 0
    requires |answers| > 0 && answers[0] == Refill(Opened(fd), ReadGot(Frame(m) + rest), true)
    ensures ReadSpec(LineArgs(path, PipeRdOnly, answers), c, true)
            == ReadEnd(Done(m.command), c.(window := LengthField(|m.body|) + "\n" + m.body + "\n" + rest,
                                           calls := c.calls + [SysOpen(path, FlagsFor(PipeRdOnly)), SysClose(fd)]), 1)
  {
    var a := LineArgs(path, PipeRdOnly, answers);
    var calls := c.calls + [SysOpen(path, FlagsFor(PipeRdOnly)), SysClose(fd)];
    var c0 := c.(window := Frame(m) + rest, calls := calls);
    assert c.calls + [SysOpen(path, FlagsFor(PipeRdOnly))] + [SysClose(fd)] == calls;
    assert DrainStep(a, Scan(c, 0, '\0', 0, [])) == Continue(Scan(c0, 1, '\0', 0, []));
    var w := c0.window;
    var i := |m.command|;
    assert w == m.command + "\n" + (LengthField(|m.body|) + "\n" + m.body + "\n" + rest);
    assert w[..i] == m.command && w[i] == '\n';
    forall t | 0 <= t < i
      ensures Continues(a, t + 1, w[t])
    {
      assert w[t] == w[..i][t];
    }
    DrainFrom(a, c0, 1, i);
  }

  /** The usual round trip: the buffer is empty and one refill delivers
      the whole frame; the message is received as from a pending frame, after
      that refill's open and close. */
  lemma FrameRefilled(c: Chan, path: string, answers: seq<Refill>, m: Message, rest: string, fd: nat)
    requires |m.command| < PIPE_LINE_MAX && '\n' !in m.command && '\0' !in m.command
    requires '\0' !in m.body && |m.body| < INT_MAX
    requires c.window == [] && c.fd == 0 && fd != 0
    requires |answers| > 0 && answers[0] == Refill(Opened(fd), ReadGot(Frame(m) + rest), true)
    ensures var c1 := c.(window := "\n" + rest, calls := c.calls + [SysOpen(path, FlagsFor(PipeRdOnly)), SysClose(fd)]);
      Receive(c, path, PipeRdOnly, ReadAllocs(true, true, true), answers)
      == ReceiveEnd(Received(Message(m.command, DropLast(m.body))), c1, 1)
  {
    var allocs := ReadAllocs(true, true, true);
    var n := |m.body|;
    var d := LengthField(n);
    var c0 := c.(calls := c.calls + [SysOpen(path, FlagsFor(PipeRdOnly)), SysClose(fd)]);
    var c1 := c0.(window := d + "\n" + m.body + "\n" + rest);
    var c2 := c0.(window := m.body + "\n" + rest);
    var e1 := ReadEnd(Done(m.command), c1, 1);
    var e2 := ReadEnd(Done(d), c2, 0);
    var e3 := ReadEnd(Done(DropLast(m.body)), c0.(window := "\n" + rest), 0);
    CommandAfterRefill(c, path, answers, m, rest, fd);
    assert Receive(c, path, PipeRdOnly, allocs, answers) == AfterCommand(e1, path, PipeRdOnly, allocs, answers);
    var tail := answers[1..];
    LengthLineRead(c1, path, tail, n, m.body + "\n" + rest);
    assert AfterCommand(e1, path, PipeRdOnly, allocs, answers) == AfterLength(m.command, 1, e2, path, PipeRdOnly, allocs, tail);
    LengthFieldRoundTrip(n);
    assert tail[0..] == tail;
    BodyRead(c2, path, tail, m.body, rest);
    assert AfterLength(m.command, 1, e2, path, PipeRdOnly, allocs, tail) == AfterBody(m.command, 1, e3);
  }

  /** The newline left behind by a received frame is read as an empty
      command line. */
  lemma LeftoverNewline(c: Chan, path: string, answers: seq<Refill>, rest: string)
    requires c.window == "\n" + rest
    ensures ReadSpec(LineArgs(path, PipeRdOnly, answers), c, true) == ReadEnd(Done(""), c.(window := rest), 0)
  {
    LineRead(c, path, PipeRdOnly, answers, 0);
    assert c.window[1..] == rest;
    assert UntilNul(c.window[..0]) == "";
  }
}
