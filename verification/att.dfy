/** What an attribute access callback sees and returns. The host stack calls a
    callback with the access kind and a buffer: for a read the callback appends
    the value to the buffer, for a write it copies the value out of it. The
    callback's integer return is 0 for success or the ATT error to send. */
module Att {
  import opened Bytes

  /** BLE_GATT_ACCESS_OP_*: the four kinds of access. */
  datatype AccessOp = ReadChr | WriteChr | ReadDsc | WriteDsc

  /** ATT error codes, section 3.4.1.1 of Bluetooth Core Vol 3 Part F. */
  const ErrUnlikely: int := 0x0E
  const ErrInsufficientResources: int := 0x11

  /** One call of an access callback: the access kind, the bytes the central
      wrote (for a write), and the status the stack's append into the response
      buffer reports if the callback appends (0, or the allocator's error). */
  datatype Access = Access(op: AccessOp, written: seq<uint8>, appendRc: int)

  /** The callback's return code and the bytes it appended to the response. */
  datatype Response = Response(rc: int, appended: seq<uint8>)

  /** A response together with the new value of the state the callback owns. */
  datatype Handled<S> = Handled(response: Response, state: S)

  /** The reply to an access a callback does not support. */
  const Rejected: Response := Response(ErrUnlikely, [])

  /** Appends `value`, returning the append status as the callback's own. A
      failed append is taken to leave nothing behind: the stack discards the
      buffer when the callback returns nonzero. */
  function AppendRaw(appendRc: int, value: seq<uint8>): Response
  {
    if appendRc == 0 then Response(0, value) else Response(appendRc, [])
  }

  /** Appends `value`, turning a failed append into "insufficient resources". */
  function AppendOrInsufficient(appendRc: int, value: seq<uint8>): Response
  {
    if appendRc == 0 then Response(0, value) else Response(ErrInsufficientResources, [])
  }

  /** The status os_mbuf_copydata reports when the buffer holds fewer bytes than asked. */
  const CopyShort: int := -1

  /** Copying `n` bytes from the start of what the central wrote: the status
      and the bytes that reach the destination. A short buffer still has its
      bytes copied before the copy reports failure. */
  datatype Copy = Copy(rc: int, copied: seq<uint8>)

  function CopyData(written: seq<uint8>, n: nat): (c: Copy)
    ensures c.rc == 0 <==> |written| >= n
    ensures c.rc == 0 ==> c.copied == written[..n]
    ensures c.rc != 0 ==> c.rc == CopyShort && c.copied == written
  {
    if |written| >= n then Copy(0, written[..n]) else Copy(CopyShort, written)
  }
}
