/** CAP_PipeBuffer: a fixed-size character buffer that one read(2) fills and
    that is then drained one character at a time. */
module Buffer {

  import opened Wrappers
  import opened Defs

  class PipeBuffer {
    /** The malloc'd block of `size` characters. */
    const data: array<char>
    const size: nat
    /** The read position, as an offset from the start of `data`. */
    var curr: nat
    /** How many characters the last read(2) delivered. */
    var used: nat

    ghost predicate Valid()
      reads this
    {
      data.Length == size && 0 < size && curr <= used <= size
    }

    /** The characters delivered but not yet handed out by Next. */
    ghost function Pending(): seq<char>
      reads this, data
      requires Valid()
    {
      data[curr..used]
    }

    constructor (size: nat)
      requires 0 < size
      ensures Valid() && fresh(data)
      ensures this.size == size && curr == 0 && used == 0
      ensures Pending() == []
    {
      this.size := size;
      data := new char[size];
      curr := 0;
      used := 0;
    }

    /** Hands out the next pending character, or reports BufferEmpty. */
    method Next() returns (r: Result<char, PipeError>)
      requires Valid()
      modifies this`curr
      ensures Valid()
      ensures old(Pending()) == [] ==> r == Failure(BufferEmpty) && curr == old(curr)
      ensures old(Pending()) != [] ==>
        r == Success(old(Pending())[0]) && curr == old(curr) + 1 && Pending() == old(Pending())[1..]
    {
      if curr >= used {
        return Failure(BufferEmpty);
      }
      r := Success(data[curr]);
      curr := curr + 1;
    }

    /** Refills the buffer from descriptor `fd`; `answer` is what read(2) returns.
        Refuses while characters are pending or when no descriptor is set. */
    method Read(fd: int, answer: ReadAnswer) returns (r: Outcome<PipeError>)
      requires Valid()
      requires answer.ReadGot? ==> |answer.bytes| <= size
      modifies this`curr, this`used, data
      ensures Valid()
      ensures old(Pending()) != [] || fd == 0 ==>
        r == Fail(ReadFail) && curr == old(curr) && used == old(used) && unchanged(data)
      ensures old(Pending()) == [] && fd != 0 && answer.ReadError? ==>
        r == Fail(ReadFail) && curr == 0 && used == 0 && unchanged(data)
      ensures old(Pending()) == [] && fd != 0 && answer.ReadGot? ==>
        r == Pass && curr == 0 && Pending() == answer.bytes
        && forall j :: |answer.bytes| <= j < size ==> data[j] == old(data[j])
    {
      if curr < used {
        return Fail(ReadFail);
      }
      if fd == 0 {
        return Fail(ReadFail);
      }
      curr := 0;
      match answer
      case ReadError =>
        used := 0;
        r := Fail(ReadFail);
      case ReadGot(bytes) =>
        var i := 0;
        while i < |bytes|
          invariant 0 <= i <= |bytes| <= data.Length
          invariant Valid() && curr == 0 && used == old(used)
          invariant forall j :: 0 <= j < i ==> data[j] == bytes[j]
          invariant forall j :: |bytes| <= j < data.Length ==> data[j] == old(data[j])
        {
          data[i] := bytes[i];
          i := i + 1;
        }
        used := |bytes|;
        assert data[..used] == bytes;
        r := Pass;
    }
  }

  /** The constructor's checks: no log, a zero size, or a failed allocation
      (a negative size asks malloc for more than it can give). */
  method NewPipeBuffer(size: int, hasLog: bool, allocOk: bool) returns (r: Result<PipeBuffer, PipeError>)
    ensures !hasLog ==> r == Failure(NoErrLog)
    ensures hasLog && size == 0 ==> r == Failure(BufferEmpty)
    ensures hasLog && size != 0 && (size < 0 || !allocOk) ==> r == Failure(BufferFail)
    ensures hasLog && size > 0 && allocOk ==>
      r.Success? && fresh(r.value) && fresh(r.value.data) && r.value.Valid()
      && r.value.size == size && r.value.curr == 0 && r.value.Pending() == []
  {
    if !hasLog {
      return Failure(NoErrLog);
    }
    if size == 0 {
      return Failure(BufferEmpty);
    }
    if size < 0 || !allocOk {
      return Failure(BufferFail);
    }
    var b := new PipeBuffer(size);
    r := Success(b);
  }
}
