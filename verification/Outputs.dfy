/** Values shared by the blocking and the concurrent execution paths. */
module Outputs {
  import opened Words

  datatype Option<+T> = None | Some(value: T)

  type Bytes = seq<u8>

  datatype Stream = Stdout | Stderr

  datatype Status = Exited | Signaled | Timeout | OutputLimitExceeded

  datatype Output = Output(
    stdout: Bytes, stderr: Bytes, status: Status, duration: int, exitCode: Option<i32>, signal: Option<i32>)
  {
    function Size(): nat { |stdout| + |stderr| }
  }

  /** One `read` of at most 4096 bytes from a non-blocking pipe. */
  datatype ReadResult = Data(bytes: Bytes) | Eof | WouldBlock | Failed

  const BUFFER_SIZE := 4096

  predicate ValidRead(r: ReadResult) {
    r.Data? ==> 1 <= |r.bytes| <= BUFFER_SIZE
  }

  /** `waitid` on the pidfd: an exit code, a signal, neither, or an error. */
  datatype WaitResult = ExitedWith(code: i32) | KilledBy(sig: i32) | OtherChange | WaitFailed
  {
    function ExitCode(): Option<i32> { if ExitedWith? then Some(code) else None }

    function Signal(): Option<i32> { if KilledBy? then Some(sig) else None }
  }
}
