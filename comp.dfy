/** CAP_Comp: the master's handle on a peripheral component process, with the
    process id it forked and a busy flag kept for its caller. */
module Comp {

  import opened Wrappers
  import opened Defs
  import opened Pipe
  import opened PipeProps

  /** The message that asks a component to terminate. */
  const QUIT: Message := Message("MSG_QUIT", "")

  class Comp {
    /** The process id of the forked component, 0 when none runs. */
    var pID: int
    var busy: bool
    const path: string
    const name: string

    constructor (name: string, path: string)
      ensures this.name == name && this.path == path && pID == 0 && !busy
    {
      this.name := name;
      this.path := path;
      pID := 0;
      busy := false;
    }

    predicate IsRunning()
      reads this
    {
      pID != 0
    }

    /** Forks the component; `fork` is what fork(2) answers: -1 on failure,
        0 in the child, the child's id in the parent. In the child the
        component's image replaces the process, and a failed execve leaves a
        copy of the master that goes on with pID 0. */
    method Start(fork: int)
      requires fork >= -1
      modifies this`pID
      ensures old(pID) != 0 ==> pID == old(pID)
      ensures old(pID) == 0 ==> pID == (if fork > 0 then fork else 0)
      ensures IsRunning() <==> old(IsRunning()) || fork > 0
    {
      if IsRunning() {
        return;
      }
      pID := fork;
      if fork == -1 {
        pID := 0;
      }
    }

    /** Sends MSG_QUIT with an empty body through `pipe`; only when the message
        goes out is the component taken for stopped. The WrongMode exception
        of sendMessage is not caught. */
    method Stop(pipe: Pipe, env: WriteEnv) returns (r: Result<bool, PipeError>)
      requires pipe.Valid()
      modifies this`pID, this`busy, pipe`fileD, pipe`calls
      ensures pipe.Valid()
      ensures pipe.mode != PipeWrOnly ==>
        r == Failure(WrongMode) && pipe.State() == old(pipe.State()) && pID == old(pID) && busy == old(busy)
      ensures pipe.mode == PipeWrOnly ==>
        var (o, c) := WriteStep(old(pipe.State()), pipe.pathname, pipe.mode, Frame(QUIT), env);
        r == Success(o.Pass?) && pipe.State() == c
        && (if o.Pass? then pID == 0 && !busy else pID == old(pID) && busy == old(busy))
    {
      r := pipe.SendMessage(QUIT, env);
      if r.Failure? || !r.value {
        return;
      }
      pID := 0;
      busy := false;
    }

    method SetBusy(b: bool)
      modifies this`busy
      ensures busy == b
    {
      busy := b;
    }

    method IsBusy() returns (b: bool)
      ensures b == busy
    {
      b := busy;
    }

    /** The destructor's check: a component still running cannot be
        destroyed. */
    method Destroy() returns (r: Outcome<CapError>)
      ensures r.Fail? <==> IsRunning()
      ensures r.Fail? ==> r.error == CompUp
    {
      if IsRunning() {
        return Fail(CompUp);
      }
      r := Pass;
    }
  }

  /** The constructor's check for the global log. */
  method NewComp(name: string, path: string, hasLog: bool) returns (r: Result<Comp, CapError>)
    ensures !hasLog ==> r == Failure(CapNoErrLog)
    ensures hasLog ==> r.Success? && fresh(r.value) && r.value.name == name && r.value.path == path
                       && !r.value.IsRunning() && !r.value.busy
  {
    if !hasLog {
      return Failure(CapNoErrLog);
    }
    var c := new Comp(name, path);
    r := Success(c);
  }

  /** The quit message a component is sent is framed as "MSG_QUIT", a length
      line "0" and an empty body. */
  lemma QuitFrame()
    ensures Frame(QUIT) == "MSG_QUIT\n0\n\n"
  {
    assert LengthField(0) == "0";
  }

  /** A component reading its pipe receives the QUIT frame as MSG_QUIT with an
      empty body; the frame's last newline stays in the window. */
  lemma QuitReceived(c: Chan, path: string, answers: seq<Refill>, rest: string)
    requires c.window == Frame(QUIT) + rest
    ensures Receive(c, path, PipeRdOnly, ReadAllocs(true, true, true), answers)
            == ReceiveEnd(Received(QUIT), c.(window := "\n" + rest), 0)
  {
    FrameReceived(c, path, answers, QUIT, rest);
    assert DropLast(QUIT.body) == "";
  }
}
