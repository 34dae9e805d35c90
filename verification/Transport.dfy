/** The receiving half of an IOConnection (snova/io/io.h). */
module Transports {
  import opened Wire

  /** `pending` are the bytes that have yet to arrive before the end of the stream; each read hands over a nonempty piece of
      a size nobody controls, or fails. Some transports report the end of the stream as an error, others by a read of
      zero bytes. */
  class Transport {
    const endIsError: bool
    var pending: Bytes
    var failed: bool

    constructor (bytes: Bytes, endIsError: bool)
      ensures pending == bytes && !failed && this.endIsError == endIsError
    {
      pending, failed := bytes, false;
      this.endIsError := endIsError;
    }

    method AsyncRead(dst: array<Byte>, at: nat, size: nat) returns (n: nat, ec: int)
      requires 0 < size && at + size <= dst.Length
      modifies this, dst
      ensures dst[..at] == old(dst[..at])
      ensures ec != 0 ==> failed && n == 0 && pending == old(pending) && ec > 0
      ensures ec == 0 ==>
                && failed == old(failed) && n <= size
                && old(pending) == dst[at..at + n] + pending
                && (n == 0 <==> old(pending) == []) && (n == 0 ==> !endIsError)
    {
      if pending == [] && !endIsError {
        return 0, 0;
      }
      if * {
        failed := true;
        ec :| ec > 0;
        return 0, ec;
      }
      if pending == [] {
        failed := true;
        return 0, 2;
      }
      ec := 0;
      n :| 1 <= n <= |pending| && n <= size;
      CopyInto(pending[..n], dst, at);
      pending := pending[n..];
    }
  }
}
