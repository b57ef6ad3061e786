/** The constants of master.h and pipe.h, the exception codes, the pipe message,
    and the records of the operating-system calls that the pipe code issues. */
module Defs {

  import opened Wrappers

  /** File mask for newly created FIFOs (octal 0666). */
  const CAP_FILE_MASK: nat := 0x1b6
  /** Size of each pipe's read buffer. */
  const PIPE_BUFFER_SIZE: nat := 1000
  /** Longest line outside a message body. */
  const PIPE_LINE_MAX: nat := 64
  /** Failed receives from the master pipe tolerated before the loop gives up. */
  const PIPE_READ_ERROR_MAX: nat := 20

  /** The codes carried by a CAP_Exception. CompUp is thrown by the component
      destructor under a name that master.h never defines. */
  datatype CapError = CapNoErrLog | InvalParam | CompUp

  function CapCode(e: CapError): Option<nat> {
    match e
    case CapNoErrLog => Some(1)
    case InvalParam => Some(2)
    case CompUp => None
  }

  /** The codes carried by a CAP_PipeException. */
  datatype PipeError =
    | NoErrLog | IsOpen | OpenFail | CreateFail | ReadFail
    | BufferEmpty | BufferFail | WrongMode | WriteFail | IsClosed

  function PipeCode(e: PipeError): (c: nat)
    ensures 1 <= c <= 10
  {
    match e
    case NoErrLog => 1
    case IsOpen => 2
    case OpenFail => 3
    case CreateFail => 4
    case ReadFail => 5
    case BufferEmpty => 6
    case BufferFail => 7
    case WrongMode => 8
    case WriteFail => 9
    case IsClosed => 10
  }

  /** The two mutually exclusive modes a pipe is opened in. */
  datatype PipeMode = PipeWrOnly | PipeRdOnly

  /** The mode named by an integer argument (0 write-only, 1 read-only). */
  function ModeOf(m: int): (r: Option<PipeMode>)
    ensures r.Some? <==> m == 0 || m == 1
    ensures r == Some(PipeWrOnly) <==> m == 0
  {
    if m == 0 then Some(PipeWrOnly) else if m == 1 then Some(PipeRdOnly) else None
  }

  /** A message passed through a pipe: a command line and a body. */
  datatype Message = Message(command: string, body: string)

  /** The errno values the pipe code tells apart. */
  datatype Errno = EEXIST | ENXIO | OtherErrno(code: int)

  /** Flags passed to open(2): a reader blocks, a writer does not. */
  datatype OpenFlags = ReadBlocking | WriteNonBlocking

  function FlagsFor(mode: PipeMode): OpenFlags {
    if mode == PipeRdOnly then ReadBlocking else WriteNonBlocking
  }

  /** A system call issued by a pipe, as an observer of the process sees it. */
  datatype SysCall =
    | SysMkfifo(path: string, mask: nat)
    | SysOpen(path: string, flags: OpenFlags)
    | SysClose(fd: int)
    | SysWrite(fd: int, bytes: string)

  /** What open(2) answers: a descriptor, or -1 with an errno. */
  datatype OpenAnswer = Opened(fd: nat) | OpenRefused(errno: Errno)

  /** What read(2) answers: -1, or the bytes it delivered. */
  datatype ReadAnswer = ReadError | ReadGot(bytes: string)
}
