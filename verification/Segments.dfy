/** TCP segments as sender and receiver see them. */
module Segments {
  import opened Words

  const MAX_PAYLOAD_SIZE: nat := 1000
  const MAX_RETX_ATTEMPTS: nat := 8

  /**
   * `at` is the absolute number the sender counted when it built the segment. It is not on the
   * wire and no operation reads it; statements about segments do.
   */
  datatype Segment = Segment(
    seqno: u32, syn: bool, fin: bool, payload: seq<byte>,
    ack: bool, ackno: u32, win: u16, rst: bool,
    at: nat)
  {
    /** The length in sequence space: SYN and FIN count one each. */
    function Length(): nat {
      |payload| + (if syn then 1 else 0) + (if fin then 1 else 0)
    }
  }
}
