/** The USB transport as the protocol code sees it: what a blocking read
    returns, and what one command's write-then-read produces. */
module Transport {

  /** What one blocking read returns. */
  datatype ReadResult = ReadFailed | Received(bytes: seq<bv8>)

  /** What the transport does with one command: the write fails (and nothing
      is read), or the write succeeds and one read follows. */
  datatype Exchange = WriteFailed | Replied(read: ReadResult)
}
